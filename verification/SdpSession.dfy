/**
 Building a session description line by line, and writing it back: routing of lines between the session and
 the current media section, and the normal form that a round trip reaches (section 5 of RFC 8866).
 */
module SdpSession {
  import opened Bytes
  import opened Text
  import opened SdpValues
  import opened Sdp

  datatype Session = Session(
    version: byte, origin: Origin, name: string, info: Option<string>, uri: Option<string>,
    emails: seq<string>, phones: seq<string>, connection: Option<Connection>, bandwidth: seq<Bandwidth>,
    times: seq<TimeDesc>, attrs: seq<Attribute>, media: seq<Media>, extra: seq<string>)

  /** The parser's variables. */
  datatype Builder = Builder(
    version: Option<byte>, origin: Option<Origin>, name: Option<string>, info: Option<string>, uri: Option<string>,
    emails: seq<string>, phones: seq<string>, connection: Option<Connection>, bandwidth: seq<Bandwidth>,
    times: seq<TimeDesc>, attrs: seq<Attribute>, media: seq<Media>, extra: seq<string>, inMedia: bool)

  const BLANK := Builder(None, None, None, None, None, [], [], None, [], [], [], [], [], false)

  // ---------- One line ----------

  /** The line belongs to a media section if one is open. */
  predicate Routed(l: Line) {
    l.I? || l.C? || l.B? || l.A? || l.X?
  }

  function ExtendMedia(m: Media, l: Line): Media
    requires Routed(l)
  {
    match l
    case I(text) => m.(title := Some(text))
    case C(connection) => m.(connection := Some(connection))
    case B(bandwidth) => m.(bandwidth := m.bandwidth + [bandwidth])
    case A(attribute) => m.(attrs := m.attrs + [attribute])
    case X(text) => m.(extra := m.extra + [text])
  }

  function ExtendSession(b: Builder, l: Line): Builder
    requires Routed(l)
  {
    match l
    case I(text) => b.(info := Some(text))
    case C(connection) => b.(connection := Some(connection))
    case B(bandwidth) => b.(bandwidth := b.bandwidth + [bandwidth])
    case A(attribute) => b.(attrs := b.attrs + [attribute])
    case X(text) => b.(extra := b.extra + [text])
  }

  function WithLastMedia(b: Builder, m: Media): Builder
    requires b.media != []
  {
    b.(media := b.media[..|b.media| - 1] + [m])
  }

  function WithLastTime(b: Builder, t: TimeDesc): Builder
    requires b.times != []
  {
    b.(times := b.times[..|b.times| - 1] + [t])
  }

  function Step(b: Builder, l: Line): Result<Builder, SdpError> {
    if Routed(l) then
      Ok(if !b.inMedia then ExtendSession(b, l)
         else if b.media == [] then b
         else WithLastMedia(b, ExtendMedia(b.media[|b.media| - 1], l)))
    else
      match l
      case V(version) => Ok(b.(version := Some(version), inMedia := false))
      case O(origin) => Ok(b.(origin := Some(origin), inMedia := false))
      case S(text) => Ok(b.(name := Some(text), inMedia := false))
      case U(text) => Ok(b.(uri := Some(text), inMedia := false))
      case E(text) => Ok(b.(emails := b.emails + [text]))
      case P(text) => Ok(b.(phones := b.phones + [text]))
      case T(time) => Ok(b.(times := b.times + [time], inMedia := false))
      case R(text) =>
        if b.times == [] then Err(Invalid("r= without t="))
        else var t := b.times[|b.times| - 1]; Ok(WithLastTime(b, t.(repeats := t.repeats + [text])))
      case Z(text) =>
        if b.times == [] then Err(Invalid("z= without t="))
        else Ok(WithLastTime(b, b.times[|b.times| - 1].(zone := Some(text))))
      case M(media) => Ok(b.(media := b.media + [media], inMedia := true))
  }

  /** Takes in one raw line: the carriage returns at its end go, and what means nothing is skipped. */
  function Feed(b: Builder, raw: string): Result<Builder, SdpError> {
    var l := ReadLine(DropTrailing(raw, '\r'));
    if l.Err? then Err(l.error) else if l.value.None? then Ok(b) else Step(b, l.value.value)
  }

  function FeedAll(b: Builder, raws: seq<string>): Result<Builder, SdpError>
    decreases |raws|
  {
    if raws == [] then Ok(b)
    else
      var r := Feed(b, raws[0]);
      if r.Err? then r else FeedAll(r.value, raws[1..])
  }

  function Finish(b: Builder): Result<Session, SdpError> {
    if b.version.None? then Err(Missing("v="))
    else if b.origin.None? then Err(Missing("o="))
    else if b.name.None? then Err(Missing("s="))
    else Ok(Session(b.version.value, b.origin.value, b.name.value, b.info, b.uri, b.emails, b.phones, b.connection,
                    b.bandwidth, b.times, b.attrs, b.media, b.extra))
  }

  function Parse(text: string): Result<Session, SdpError> {
    var b := FeedAll(BLANK, SplitOn(text, '\n'));
    if b.Err? then Err(b.error) else Finish(b.value)
  }

  /** The parser's loop. */
  method ParseText(text: string) returns (r: Result<Session, SdpError>)
    ensures r == Parse(text)
  {
    var raws := SplitOn(text, '\n');
    var b := BLANK;
    assert raws[0..] == raws;
    for i := 0 to |raws|
      invariant FeedAll(BLANK, raws) == FeedAll(b, raws[i..])
    {
      assert raws[i..][1..] == raws[i + 1..];
      var line := DropTrailing(raws[i], '\r');
      if line != [] {
        var l := ReadLine(line);
        if l.Err? {
          return Err(l.error);
        }
        if l.value.Some? {
          var next := Step(b, l.value.value);
          if next.Err? {
            return Err(next.error);
          }
          b := next.value;
        }
      }
    }
    return Finish(b);
  }

  // ---------- Writing ----------

  function Opt<T>(o: Option<T>, f: T -> Line): seq<Line> {
    if o.Some? then [f(o.value)] else []
  }

  function Each<T>(xs: seq<T>, f: T -> Line): (ls: seq<Line>)
    ensures |ls| == |xs| && forall i :: 0 <= i < |xs| ==> ls[i] == f(xs[i])
  {
    seq(|xs|, i requires 0 <= i < |xs| => f(xs[i]))
  }

  function InfoLine(s: string): Line { I(s) }
  function UriLine(s: string): Line { U(s) }
  function EmailLine(s: string): Line { E(s) }
  function PhoneLine(s: string): Line { P(s) }
  function RepeatLine(s: string): Line { R(s) }
  function ZoneLine(s: string): Line { Z(s) }
  function ExtraLine(s: string): Line { X(s) }
  function ConnectionLine(c: Connection): Line { C(c) }
  function BandwidthLine(b: Bandwidth): Line { B(b) }
  function AttributeLine(a: Attribute): Line { A(a) }

  function TimeLines(t: TimeDesc): seq<Line> {
    [T(TimeDesc(t.start, t.stop, [], None))] + (Each(t.repeats, RepeatLine) + Opt(t.zone, ZoneLine))
  }

  function AllTimeLines(ts: seq<TimeDesc>): seq<Line> {
    if ts == [] then [] else TimeLines(ts[0]) + AllTimeLines(ts[1..])
  }

  /** The lines of a media section after its m= line. */
  function MediaRest(m: Media): seq<Line> {
    Opt(m.title, InfoLine) + (Opt(m.connection, ConnectionLine) +
    (Each(m.bandwidth, BandwidthLine) + (Each(m.attrs, AttributeLine) + Each(m.extra, ExtraLine))))
  }

  function AllMediaLines(ms: seq<Media>): seq<Line> {
    if ms == [] then [] else [M(Header(ms[0]))] + MediaRest(ms[0]) + AllMediaLines(ms[1..])
  }

  /** A description without times is written with one that is unbounded. */
  function Normal(x: Session): Session {
    if x.times == [] then x.(times := [TimeDesc(0, 0, [], None)]) else x
  }

  function TopLines(x: Session): seq<Line> {
    [V(x.version), O(x.origin), S(x.name)] + (Opt(x.info, InfoLine) + Opt(x.uri, UriLine))
  }

  function ContactLines(x: Session): seq<Line> {
    Each(x.emails, EmailLine) +
    (Each(x.phones, PhoneLine) + (Opt(x.connection, ConnectionLine) + Each(x.bandwidth, BandwidthLine)))
  }

  function TailLines(x: Session): seq<Line> {
    Each(x.attrs, AttributeLine) + Each(x.extra, ExtraLine)
  }

  function Lines(x: Session): seq<Line> {
    TopLines(x) + (ContactLines(x) + (AllTimeLines(Normal(x).times) + (TailLines(x) + AllMediaLines(x.media))))
  }

  function TextOf(ls: seq<Line>): string {
    if ls == [] then [] else Show(ls[0]) + ("\r\n" + TextOf(ls[1..]))
  }

  function Encode(x: Session): string {
    TextOf(Lines(x))
  }

  // ---------- Reading back what was written ----------

  /** Takes in lines that have been read. */
  function Run(b: Builder, ls: seq<Line>): Result<Builder, SdpError>
    decreases |ls|
  {
    if ls == [] then Ok(b)
    else
      var r := Step(b, ls[0]);
      if r.Err? then r else Run(r.value, ls[1..])
  }

  lemma DropOne(s: string)
    requires Clean(s)
    ensures DropTrailing(s + "\r", '\r') == s
  {
    assert (s + "\r")[..|s|] == s;
  }

  lemma FeedShown(b: Builder, l: Line)
    requires WfLine(l)
    ensures Feed(b, Show(l) + "\r") == Step(b, l)
  {
    ShowRead(l);
    DropOne(Show(l));
  }

  lemma SplitLine(s: string, rest: string)
    requires Clean(s)
    ensures SplitOn(s + ("\r\n" + rest), '\n') == [s + "\r"] + SplitOn(rest, '\n')
  {
    assert s + ("\r\n" + rest) == (s + "\r") + (['\n'] + rest);
    SplitOnCons(s + "\r", '\n', rest);
  }

  lemma FeedCons(b: Builder, raw: string, rest: seq<string>)
    ensures FeedAll(b, [raw] + rest) == var r := Feed(b, raw); if r.Err? then r else FeedAll(r.value, rest)
  {
    assert ([raw] + rest)[1..] == rest;
  }

  lemma FeedNothing(b: Builder)
    ensures FeedAll(b, SplitOn("", '\n')) == Ok(b)
  {
    assert SplitOn("", '\n') == [""];
    FeedCons(b, "", []);
    assert [""] + [] == [""];
    assert DropTrailing("", '\r') == "";
  }

  /** Parsing written lines is taking them in one by one. */
  lemma {:induction false} FeedText(b: Builder, ls: seq<Line>)
    requires forall l <- ls :: WfLine(l)
    ensures FeedAll(b, SplitOn(TextOf(ls), '\n')) == Run(b, ls)
    decreases |ls|
  {
    if ls == [] {
      FeedNothing(b);
    } else {
      var rest := TextOf(ls[1..]);
      ShowRead(ls[0]);
      SplitLine(Show(ls[0]), rest);
      FeedCons(b, Show(ls[0]) + "\r", SplitOn(rest, '\n'));
      FeedShown(b, ls[0]);
      var r := Step(b, ls[0]);
      if r.Ok? {
        FeedText(r.value, ls[1..]);
      }
    }
  }

  lemma {:induction false} RunConcat(b: Builder, xs: seq<Line>, ys: seq<Line>)
    requires Run(b, xs).Ok?
    ensures Run(b, xs + ys) == Run(Run(b, xs).value, ys)
    decreases |xs|
  {
    if xs == [] {
      assert xs + ys == ys;
    } else {
      assert (xs + ys)[1..] == xs[1..] + ys;
      RunConcat(Step(b, xs[0]).value, xs[1..], ys);
    }
  }

  // ---------- Section by section ----------

  lemma EachTail<T>(xs: seq<T>, f: T -> Line)
    requires xs != []
    ensures Each(xs, f)[0] == f(xs[0]) && Each(xs, f)[1..] == Each(xs[1..], f)
  {
  }

  lemma Grow<T>(a: seq<T>, xs: seq<T>)
    ensures xs != [] ==> a + [xs[0]] + xs[1..] == a + xs
    ensures xs == [] ==> a + xs == a
  {
  }

  lemma {:induction false} RunEmails(b: Builder, xs: seq<string>)
    ensures Run(b, Each(xs, EmailLine)) == Ok(b.(emails := b.emails + xs))
    decreases |xs|
  {
    Grow(b.emails, xs);
    if xs != [] {
      EachTail(xs, EmailLine);
      RunEmails(b.(emails := b.emails + [xs[0]]), xs[1..]);
    }
  }

  lemma {:induction false} RunPhones(b: Builder, xs: seq<string>)
    ensures Run(b, Each(xs, PhoneLine)) == Ok(b.(phones := b.phones + xs))
    decreases |xs|
  {
    Grow(b.phones, xs);
    if xs != [] {
      EachTail(xs, PhoneLine);
      RunPhones(b.(phones := b.phones + [xs[0]]), xs[1..]);
    }
  }

  lemma {:induction false} RunBandwidth(b: Builder, xs: seq<Bandwidth>)
    requires !b.inMedia
    ensures Run(b, Each(xs, BandwidthLine)) == Ok(b.(bandwidth := b.bandwidth + xs))
    decreases |xs|
  {
    Grow(b.bandwidth, xs);
    if xs != [] {
      EachTail(xs, BandwidthLine);
      RunBandwidth(b.(bandwidth := b.bandwidth + [xs[0]]), xs[1..]);
    }
  }

  lemma {:induction false} RunAttributes(b: Builder, xs: seq<Attribute>)
    requires !b.inMedia
    ensures Run(b, Each(xs, AttributeLine)) == Ok(b.(attrs := b.attrs + xs))
    decreases |xs|
  {
    Grow(b.attrs, xs);
    if xs != [] {
      EachTail(xs, AttributeLine);
      RunAttributes(b.(attrs := b.attrs + [xs[0]]), xs[1..]);
    }
  }

  lemma {:induction false} RunExtra(b: Builder, xs: seq<string>)
    requires !b.inMedia
    ensures Run(b, Each(xs, ExtraLine)) == Ok(b.(extra := b.extra + xs))
    decreases |xs|
  {
    Grow(b.extra, xs);
    if xs != [] {
      EachTail(xs, ExtraLine);
      RunExtra(b.(extra := b.extra + [xs[0]]), xs[1..]);
    }
  }

  // ---------- Times ----------

  lemma LastOf<T>(ts: seq<T>, t: T)
    ensures (ts + [t])[..|ts + [t]| - 1] == ts && (ts + [t])[|ts + [t]| - 1] == t
  {
  }

  lemma {:induction false} RunRepeats(b: Builder, ts: seq<TimeDesc>, t: TimeDesc, xs: seq<string>)
    requires b.times == ts + [t]
    ensures Run(b, Each(xs, RepeatLine)) == Ok(b.(times := ts + [t.(repeats := t.repeats + xs)]))
    decreases |xs|
  {
    Grow(t.repeats, xs);
    if xs != [] {
      EachTail(xs, RepeatLine);
      LastOf(ts, t);
      var t' := t.(repeats := t.repeats + [xs[0]]);
      RunRepeats(b.(times := ts + [t']), ts, t', xs[1..]);
    }
  }

  lemma RunZone(b: Builder, ts: seq<TimeDesc>, t: TimeDesc, zone: Option<string>)
    requires b.times == ts + [t] && t.zone == None
    ensures Run(b, Opt(zone, ZoneLine)) == Ok(b.(times := ts + [t.(zone := zone)]))
  {
    if zone.Some? {
      LastOf(ts, t);
      RunOne(b, ZoneLine(zone.value));
    }
  }

  lemma RunOne(b: Builder, l: Line)
    requires Step(b, l).Ok?
    ensures Run(b, [l]) == Step(b, l)
  {
    assert [l][1..] == [];
  }

  /** A time block adds exactly itself. */
  lemma RunTime(b: Builder, t: TimeDesc)
    requires !b.inMedia
    ensures Run(b, TimeLines(t)) == Ok(b.(times := b.times + [t]))
  {
    var t0 := TimeDesc(t.start, t.stop, [], None);
    var b0 := b.(times := b.times + [t0]);
    var t1 := t0.(repeats := t.repeats);
    var b1 := b.(times := b.times + [t1]);
    var (first, second, third) := ([T(t0)], Each(t.repeats, RepeatLine), Opt(t.zone, ZoneLine));
    RunOne(b, T(t0));
    RunConcat(b, first, second + third);
    RunRepeats(b0, b.times, t0, t.repeats);
    Grow([], t.repeats);
    assert [] + t.repeats == t.repeats;
    RunConcat(b0, second, third);
    RunZone(b1, b.times, t1, t.zone);
  }

  lemma {:induction false} RunTimes(b: Builder, ts: seq<TimeDesc>)
    requires !b.inMedia
    ensures Run(b, AllTimeLines(ts)) == Ok(b.(times := b.times + ts))
    decreases |ts|
  {
    Grow(b.times, ts);
    if ts != [] {
      RunTime(b, ts[0]);
      RunConcat(b, TimeLines(ts[0]), AllTimeLines(ts[1..]));
      RunTimes(b.(times := b.times + [ts[0]]), ts[1..]);
    }
  }

  // ---------- Media ----------

  function ExtendAll(m: Media, ls: seq<Line>): Media
    requires forall l <- ls :: Routed(l)
    decreases |ls|
  {
    if ls == [] then m else ExtendAll(ExtendMedia(m, ls[0]), ls[1..])
  }

  /** Inside a media section, routed lines change its last entry and nothing else. */
  lemma {:induction false} RunMedia(b: Builder, ms: seq<Media>, m: Media, ls: seq<Line>)
    requires b.inMedia && b.media == ms + [m] && forall l <- ls :: Routed(l)
    ensures Run(b, ls) == Ok(b.(media := ms + [ExtendAll(m, ls)]))
    decreases |ls|
  {
    if ls != [] {
      LastOf(ms, m);
      var m' := ExtendMedia(m, ls[0]);
      RunMedia(b.(media := ms + [m']), ms, m', ls[1..]);
    }
  }

  lemma {:induction false} ExtendConcat(m: Media, xs: seq<Line>, ys: seq<Line>)
    requires forall l <- xs + ys :: Routed(l)
    requires (forall l <- xs :: Routed(l)) && (forall l <- ys :: Routed(l))
    ensures ExtendAll(m, xs + ys) == ExtendAll(ExtendAll(m, xs), ys)
    decreases |xs|
  {
    if xs == [] {
      assert xs + ys == ys;
    } else {
      assert (xs + ys)[1..] == xs[1..] + ys;
      ExtendConcat(ExtendMedia(m, xs[0]), xs[1..], ys);
    }
  }

  lemma ExtendOne(m: Media, l: Line)
    requires Routed(l)
    ensures ExtendAll(m, [l]) == ExtendMedia(m, l)
  {
    assert [l][1..] == [];
  }

  lemma {:induction false} ExtendBandwidth(m: Media, xs: seq<Bandwidth>)
    ensures ExtendAll(m, Each(xs, BandwidthLine)) == m.(bandwidth := m.bandwidth + xs)
    decreases |xs|
  {
    Grow(m.bandwidth, xs);
    if xs != [] {
      EachTail(xs, BandwidthLine);
      ExtendBandwidth(m.(bandwidth := m.bandwidth + [xs[0]]), xs[1..]);
    }
  }

  lemma {:induction false} ExtendAttributes(m: Media, xs: seq<Attribute>)
    ensures ExtendAll(m, Each(xs, AttributeLine)) == m.(attrs := m.attrs + xs)
    decreases |xs|
  {
    Grow(m.attrs, xs);
    if xs != [] {
      EachTail(xs, AttributeLine);
      ExtendAttributes(m.(attrs := m.attrs + [xs[0]]), xs[1..]);
    }
  }

  lemma {:induction false} ExtendExtra(m: Media, xs: seq<string>)
    ensures ExtendAll(m, Each(xs, ExtraLine)) == m.(extra := m.extra + xs)
    decreases |xs|
  {
    Grow(m.extra, xs);
    if xs != [] {
      EachTail(xs, ExtraLine);
      ExtendExtra(m.(extra := m.extra + [xs[0]]), xs[1..]);
    }
  }

  lemma ExtendLists(h: Media, bs: seq<Bandwidth>, attrs: seq<Attribute>, extra: seq<string>)
    requires h.bandwidth == [] && h.attrs == [] && h.extra == []
    ensures ExtendAll(h, Each(bs, BandwidthLine) + (Each(attrs, AttributeLine) + Each(extra, ExtraLine))) ==
      h.(bandwidth := bs, attrs := attrs, extra := extra)
  {
    var (b, a, x) := (Each(bs, BandwidthLine), Each(attrs, AttributeLine), Each(extra, ExtraLine));
    Grow2(bs, attrs, extra);
    ExtendBandwidth(h, bs);
    ExtendConcat(h, b, a + x);
    ExtendAttributes(h.(bandwidth := bs), attrs);
    ExtendConcat(h.(bandwidth := bs), a, x);
    ExtendExtra(h.(bandwidth := bs, attrs := attrs), extra);
  }

  lemma Grow2(bs: seq<Bandwidth>, attrs: seq<Attribute>, extra: seq<string>)
    ensures [] + bs == bs && [] + attrs == attrs && [] + extra == extra
  {
  }

  /** A media section's own lines, after its m= line, give the section back. */
  lemma ExtendToMedia(m: Media)
    ensures (forall l <- MediaRest(m) :: Routed(l)) && ExtendAll(Header(m), MediaRest(m)) == m
  {
    var (i, c) := (Opt(m.title, InfoLine), Opt(m.connection, ConnectionLine));
    var lists := Each(m.bandwidth, BandwidthLine) + (Each(m.attrs, AttributeLine) + Each(m.extra, ExtraLine));
    assert MediaRest(m) == i + (c + lists);
    var h0 := Header(m);
    var h1 := h0.(title := m.title);
    if m.title.Some? {
      ExtendOne(h0, InfoLine(m.title.value));
    }
    if m.connection.Some? {
      ExtendOne(h1, ConnectionLine(m.connection.value));
    }
    ExtendConcat(h0, i, c + lists);
    ExtendConcat(h1, c, lists);
    ExtendLists(h1.(connection := m.connection), m.bandwidth, m.attrs, m.extra);
  }

  lemma {:induction false} RunAllMedia(b: Builder, ms: seq<Media>)
    ensures Run(b, AllMediaLines(ms)) == Ok(b.(media := b.media + ms, inMedia := ms != [] || b.inMedia))
    decreases |ms|
  {
    Grow(b.media, ms);
    if ms != [] {
      var m, rest := ms[0], AllMediaLines(ms[1..]);
      var (first, second) := ([M(Header(m))], MediaRest(m));
      var b0 := b.(media := b.media + [Header(m)], inMedia := true);
      var b1 := b.(media := b.media + [m], inMedia := true);
      ExtendToMedia(m);
      RunOne(b, M(Header(m)));
      RunConcat(b, first, second);
      RunMedia(b0, b.media, Header(m), second);
      RunConcat(b, first + second, rest);
      RunAllMedia(b1, ms[1..]);
    }
  }

  // ---------- The whole description ----------

  lemma RunOpt(b: Builder, o: Option<string>, f: string -> Line)
    requires o.Some? ==> Step(b, f(o.value)).Ok?
    ensures Run(b, Opt(o, f)) == if o.Some? then Step(b, f(o.value)) else Ok(b)
  {
    if o.Some? {
      RunOne(b, f(o.value));
    }
  }

  lemma RunTop(x: Session)
    ensures Run(BLANK, TopLines(x)) ==
      Ok(BLANK.(version := Some(x.version), origin := Some(x.origin), name := Some(x.name),
                info := x.info, uri := x.uri))
  {
    var (v, o, s) := (V(x.version), O(x.origin), S(x.name));
    var b1 := BLANK.(version := Some(x.version));
    var b2 := b1.(origin := Some(x.origin));
    var b3 := b2.(name := Some(x.name));
    var b4 := b3.(info := x.info);
    assert [v, o, s][1..] == [o, s] && [o, s][1..] == [s];
    RunOne(b2, s);
    assert Run(b1, [o, s]) == Ok(b3);
    assert Run(BLANK, [v, o, s]) == Ok(b3);
    RunOpt(b3, x.info, InfoLine);
    RunOpt(b4, x.uri, UriLine);
    RunConcat(b3, Opt(x.info, InfoLine), Opt(x.uri, UriLine));
    RunConcat(BLANK, [v, o, s], Opt(x.info, InfoLine) + Opt(x.uri, UriLine));
  }

  lemma RunContacts(b: Builder, x: Session)
    requires !b.inMedia && b.emails == [] && b.phones == [] && b.connection == None && b.bandwidth == []
    ensures Run(b, ContactLines(x)) ==
      Ok(b.(emails := x.emails, phones := x.phones, connection := x.connection, bandwidth := x.bandwidth))
  {
    var (e, p, c, w) := (Each(x.emails, EmailLine), Each(x.phones, PhoneLine), Opt(x.connection, ConnectionLine),
                         Each(x.bandwidth, BandwidthLine));
    var b1 := b.(emails := x.emails);
    var b2 := b1.(phones := x.phones);
    var b3 := b2.(connection := x.connection);
    RunEmails(b, x.emails);
    assert [] + x.emails == x.emails;
    RunConcat(b, e, p + (c + w));
    RunPhones(b1, x.phones);
    assert [] + x.phones == x.phones;
    RunConcat(b1, p, c + w);
    if x.connection.Some? {
      RunOne(b2, ConnectionLine(x.connection.value));
    }
    RunConcat(b2, c, w);
    RunBandwidth(b3, x.bandwidth);
    assert [] + x.bandwidth == x.bandwidth;
  }

  lemma RunTail(b: Builder, x: Session)
    requires !b.inMedia && b.attrs == [] && b.extra == []
    ensures Run(b, TailLines(x)) == Ok(b.(attrs := x.attrs, extra := x.extra))
  {
    var (a, e) := (Each(x.attrs, AttributeLine), Each(x.extra, ExtraLine));
    RunAttributes(b, x.attrs);
    assert [] + x.attrs == x.attrs;
    RunConcat(b, a, e);
    RunExtra(b.(attrs := x.attrs), x.extra);
    assert [] + x.extra == x.extra;
  }

  /** The state that holds a description. */
  function Holding(x: Session): Builder {
    Builder(Some(x.version), Some(x.origin), Some(x.name), x.info, x.uri, x.emails, x.phones, x.connection,
            x.bandwidth, x.times, x.attrs, x.media, x.extra, x.media != [])
  }

  /** Taking in the lines of a description gives its normal form. */
  lemma RunLines(x: Session)
    ensures Run(BLANK, Lines(x)) == Ok(Holding(Normal(x)))
  {
    var (top, contacts, times, tail, media) :=
      (TopLines(x), ContactLines(x), AllTimeLines(Normal(x).times), TailLines(x), AllMediaLines(x.media));
    RunTop(x);
    var b1 := Run(BLANK, top).value;
    RunContacts(b1, x);
    var b2 := Run(b1, contacts).value;
    RunTimes(b2, Normal(x).times);
    assert [] + Normal(x).times == Normal(x).times;
    var b3 := b2.(times := Normal(x).times);
    RunTail(b3, x);
    var b4 := b3.(attrs := x.attrs, extra := x.extra);
    RunAllMedia(b4, x.media);
    assert [] + x.media == x.media;
    RunConcat(BLANK, top, contacts + (times + (tail + media)));
    RunConcat(b1, contacts, times + (tail + media));
    RunConcat(b2, times, tail + media);
    RunConcat(b3, tail, media);
  }

  // ---------- What the parser produces ----------

  predicate AllClean(xs: seq<string>) {
    forall i :: 0 <= i < |xs| ==> Clean(xs[i])
  }

  predicate AllExtra(xs: seq<string>) {
    forall i :: 0 <= i < |xs| ==> Clean(xs[i]) && WfExtra(xs[i])
  }

  predicate AllBandwidth(xs: seq<Bandwidth>) {
    forall i :: 0 <= i < |xs| ==> WfBandwidth(xs[i])
  }

  predicate AllAttributes(xs: seq<Attribute>) {
    forall i :: 0 <= i < |xs| ==> WfAttribute(xs[i])
  }

  predicate WfMedia(m: Media) {
    && WfHeader(m) && (m.title.Some? ==> Clean(m.title.value))
    && (m.connection.Some? ==> WfConnection(m.connection.value))
    && AllBandwidth(m.bandwidth) && AllAttributes(m.attrs) && AllExtra(m.extra)
  }

  predicate WfTime(t: TimeDesc) {
    AllClean(t.repeats) && (t.zone.Some? ==> Clean(t.zone.value))
  }

  predicate WfTop(b: Builder) {
    && (b.origin.Some? ==> WfOrigin(b.origin.value)) && (b.name.Some? ==> Clean(b.name.value))
    && (b.info.Some? ==> Clean(b.info.value)) && (b.uri.Some? ==> Clean(b.uri.value))
  }

  predicate WfLists(b: Builder) {
    && AllClean(b.emails) && AllClean(b.phones) && (b.connection.Some? ==> WfConnection(b.connection.value))
    && AllBandwidth(b.bandwidth) && AllAttributes(b.attrs) && AllExtra(b.extra)
  }

  predicate WfSections(b: Builder) {
    && (forall i :: 0 <= i < |b.times| ==> WfTime(b.times[i]))
    && (forall i :: 0 <= i < |b.media| ==> WfMedia(b.media[i]))
  }

  predicate WfBuilder(b: Builder) {
    WfTop(b) && WfLists(b) && WfSections(b)
  }

  lemma ExtendMediaWf(m: Media, l: Line)
    requires Routed(l) && WfLine(l) && WfMedia(m)
    ensures WfMedia(ExtendMedia(m, l))
  {
  }

  lemma ExtendSessionWf(b: Builder, l: Line)
    requires Routed(l) && WfLine(l) && WfBuilder(b)
    ensures WfBuilder(ExtendSession(b, l))
  {
  }

  lemma RoutedWf(b: Builder, l: Line)
    requires Routed(l) && WfLine(l) && WfBuilder(b)
    ensures WfBuilder(Step(b, l).value)
  {
    if !b.inMedia {
      ExtendSessionWf(b, l);
    } else if b.media != [] {
      var n := |b.media| - 1;
      ExtendMediaWf(b.media[n], l);
      var b' := WithLastMedia(b, ExtendMedia(b.media[n], l));
      assert forall i :: 0 <= i < n ==> b'.media[i] == b.media[i];
    }
  }

  lemma TimeChangeWf(b: Builder, t: TimeDesc)
    requires WfBuilder(b) && b.times != [] && WfTime(t)
    ensures WfBuilder(WithLastTime(b, t))
  {
    var b' := WithLastTime(b, t);
    assert forall i :: 0 <= i < |b.times| - 1 ==> b'.times[i] == b.times[i];
  }

  lemma MediaAddedWf(b: Builder, m: Media)
    requires WfBuilder(b) && WfHeader(m) && m == Header(m)
    ensures WfBuilder(b.(media := b.media + [m], inMedia := true))
  {
  }

  lemma StepWf(b: Builder, l: Line)
    requires WfBuilder(b) && WfLine(l) && Step(b, l).Ok?
    ensures WfBuilder(Step(b, l).value)
  {
    if Routed(l) {
      RoutedWf(b, l);
    } else if l.R? {
      var t := b.times[|b.times| - 1];
      TimeChangeWf(b, t.(repeats := t.repeats + [l.text]));
    } else if l.Z? {
      TimeChangeWf(b, b.times[|b.times| - 1].(zone := Some(l.text)));
    } else if l.M? {
      MediaAddedWf(b, l.media);
    }
  }

  lemma {:induction false} FeedAllWf(b: Builder, raws: seq<string>)
    requires WfBuilder(b) && (forall i :: 0 <= i < |raws| ==> '\n' !in raws[i]) && FeedAll(b, raws).Ok?
    ensures WfBuilder(FeedAll(b, raws).value)
    decreases |raws|
  {
    if raws != [] {
      FeedWf(b, raws[0]);
      FeedAllWf(Feed(b, raws[0]).value, raws[1..]);
    }
  }

  lemma FeedWf(b: Builder, raw: string)
    requires WfBuilder(b) && '\n' !in raw && Feed(b, raw).Ok?
    ensures WfBuilder(Feed(b, raw).value)
  {
    var line := DropTrailing(raw, '\r');
    var l := ReadLine(line).value;
    if l.Some? {
      ReadLineWf(line);
      StepWf(b, l.value);
    }
  }

  // ---------- Every line written can be read ----------

  predicate AllWf(ls: seq<Line>) {
    forall l <- ls :: WfLine(l)
  }

  lemma ConcatWf(xs: seq<Line>, ys: seq<Line>)
    requires AllWf(xs) && AllWf(ys)
    ensures AllWf(xs + ys)
  {
  }

  lemma {:induction false} TimesWf(ts: seq<TimeDesc>)
    requires forall i :: 0 <= i < |ts| ==> WfTime(ts[i])
    ensures AllWf(AllTimeLines(ts))
  {
    if ts != [] {
      TimesWf(ts[1..]);
      assert AllWf(TimeLines(ts[0]));
      ConcatWf(TimeLines(ts[0]), AllTimeLines(ts[1..]));
    }
  }

  lemma MediaRestWf(m: Media)
    requires WfMedia(m)
    ensures AllWf(MediaRest(m))
  {
    var (b, a, x) := (Each(m.bandwidth, BandwidthLine), Each(m.attrs, AttributeLine), Each(m.extra, ExtraLine));
    ConcatWf(a, x);
    ConcatWf(b, a + x);
    ConcatWf(Opt(m.connection, ConnectionLine), b + (a + x));
    ConcatWf(Opt(m.title, InfoLine), Opt(m.connection, ConnectionLine) + (b + (a + x)));
  }

  lemma {:induction false} AllMediaWf(ms: seq<Media>)
    requires forall i :: 0 <= i < |ms| ==> WfMedia(ms[i])
    ensures AllWf(AllMediaLines(ms))
  {
    if ms != [] {
      AllMediaWf(ms[1..]);
      MediaRestWf(ms[0]);
      ConcatWf([M(Header(ms[0]))], MediaRest(ms[0]));
      ConcatWf([M(Header(ms[0]))] + MediaRest(ms[0]), AllMediaLines(ms[1..]));
    }
  }

  lemma TopWf(x: Session)
    requires WfTop(Holding(x))
    ensures AllWf(TopLines(x))
  {
    ConcatWf(Opt(x.info, InfoLine), Opt(x.uri, UriLine));
    assert AllWf([V(x.version), O(x.origin), S(x.name)]);
    ConcatWf([V(x.version), O(x.origin), S(x.name)], Opt(x.info, InfoLine) + Opt(x.uri, UriLine));
  }

  lemma TailWf(x: Session)
    requires WfLists(Holding(x))
    ensures AllWf(TailLines(x))
  {
    ConcatWf(Each(x.attrs, AttributeLine), Each(x.extra, ExtraLine));
  }

  lemma LinesWf(x: Session)
    requires WfBuilder(Holding(x))
    ensures AllWf(Lines(x))
  {
    TopWf(x);
    ContactsWf(x);
    TimesWf(Normal(x).times);
    TailWf(x);
    AllMediaWf(x.media);
    FiveWf(TopLines(x), ContactLines(x), AllTimeLines(Normal(x).times), TailLines(x), AllMediaLines(x.media));
  }

  lemma FiveWf(a: seq<Line>, b: seq<Line>, c: seq<Line>, d: seq<Line>, e: seq<Line>)
    requires AllWf(a) && AllWf(b) && AllWf(c) && AllWf(d) && AllWf(e)
    ensures AllWf(a + (b + (c + (d + e))))
  {
  }

  lemma ContactsWf(x: Session)
    requires WfLists(Holding(x))
    ensures AllWf(ContactLines(x))
  {
    var (e, p, c, w) := (Each(x.emails, EmailLine), Each(x.phones, PhoneLine), Opt(x.connection, ConnectionLine),
                         Each(x.bandwidth, BandwidthLine));
    ConcatWf(c, w);
    ConcatWf(p, c + w);
    ConcatWf(e, p + (c + w));
  }

  // ---------- Where times come from ----------

  /** The raw line reads as a t= line. */
  predicate IsTime(raw: string) {
    var l := ReadLine(DropTrailing(raw, '\r'));
    l.Ok? && l.value.Some? && l.value.value.T?
  }

  /** Some line reads as a t= line. */
  predicate TimeIn(raws: seq<string>) {
    exists i :: 0 <= i < |raws| && IsTime(raws[i])
  }

  lemma StepTimes(b: Builder, l: Line)
    requires Step(b, l).Ok?
    ensures Step(b, l).value.times != [] <==> b.times != [] || l.T?
  {
  }

  lemma FeedTimes(b: Builder, raw: string)
    requires Feed(b, raw).Ok?
    ensures Feed(b, raw).value.times != [] <==> b.times != [] || IsTime(raw)
  {
    var l := ReadLine(DropTrailing(raw, '\r'));
    if l.value.Some? {
      StepTimes(b, l.value.value);
    }
  }

  lemma TimeInCons(raws: seq<string>)
    requires raws != []
    ensures TimeIn(raws) <==> IsTime(raws[0]) || TimeIn(raws[1..])
  {
    if TimeIn(raws) {
      var i :| 0 <= i < |raws| && IsTime(raws[i]);
      assert i > 0 ==> IsTime(raws[1..][i - 1]);
    }
    assert forall i :: 0 <= i < |raws| - 1 ==> raws[1..][i] == raws[i + 1];
  }

  /** A description has a time exactly if some line reads as one. */
  lemma {:induction false} FeedAllTimes(b: Builder, raws: seq<string>)
    requires FeedAll(b, raws).Ok?
    ensures FeedAll(b, raws).value.times != [] <==> b.times != [] || TimeIn(raws)
    decreases |raws|
  {
    if raws != [] {
      FeedTimes(b, raws[0]);
      FeedAllTimes(Feed(b, raws[0]).value, raws[1..]);
      TimeInCons(raws);
    }
  }

  /** The text has a t= line. */
  predicate HasTime(text: string) {
    TimeIn(SplitOn(text, '\n'))
  }

  lemma ParsedTimes(text: string)
    requires Parse(text).Ok?
    ensures Parse(text).value.times != [] <==> HasTime(text)
  {
    FeedAllTimes(BLANK, SplitOn(text, '\n'));
  }

  // ---------- Main results ----------

  lemma Reencoded(x: Session)
    requires WfBuilder(Holding(x))
    ensures Parse(Encode(x)) == Ok(Normal(x))
  {
    LinesWf(x);
    FeedText(BLANK, Lines(x));
    RunLines(x);
  }

  lemma ParsedWf(text: string)
    requires Parse(text).Ok?
    ensures WfBuilder(Holding(Parse(text).value))
  {
    var raws := SplitOn(text, '\n');
    FeedAllWf(BLANK, raws);
  }

  /**
   For every text that parses, writing the result and parsing again gives its normal form: the same
   description, except that a missing time becomes an unbounded one. So it is the same exactly if some line of the
   text reads as a t= line; and the normal form is reached after one round.
   */
  lemma Normalises(text: string)
    requires Parse(text).Ok?
    ensures var x := Parse(text).value;
      && Parse(Encode(x)) == Ok(Normal(x))
      && (Parse(Encode(x)) == Ok(x) <==> HasTime(text))
      && Parse(Encode(Normal(x))) == Ok(Normal(x))
  {
    var x := Parse(text).value;
    ParsedWf(text);
    ParsedTimes(text);
    Reencoded(x);
    ParsedWf(Encode(x));
    Reencoded(Normal(x));
  }

  // ---------- The encoder's code ----------

  lemma {:induction false} TextConcat(xs: seq<Line>, ys: seq<Line>)
    ensures TextOf(xs + ys) == TextOf(xs) + TextOf(ys)
  {
    if xs == [] {
      assert xs + ys == ys;
    } else {
      assert (xs + ys)[1..] == xs[1..] + ys;
      TextConcat(xs[1..], ys);
    }
  }

  lemma TextSnoc(xs: seq<Line>, l: Line)
    ensures TextOf(xs + [l]) == TextOf(xs) + (Show(l) + "\r\n")
  {
    TextConcat(xs, [l]);
    assert [l][1..] == [] && TextOf([]) == [];
    assert "\r\n" + [] == "\r\n";
  }

  /** Text under construction; ls says which lines it holds. */
  method Push(out: string, ghost ls: seq<Line>, l: Line) returns (more: string)
    requires out == TextOf(ls)
    ensures more == TextOf(ls + [l])
  {
    TextSnoc(ls, l);
    more := out + (Show(l) + "\r\n");
  }

  method PushOpt<T>(out: string, ghost ls: seq<Line>, o: Option<T>, f: T -> Line) returns (more: string)
    requires out == TextOf(ls)
    ensures more == TextOf(ls + Opt(o, f))
  {
    if o.Some? {
      more := Push(out, ls, f(o.value));
    } else {
      more := out;
      assert ls + [] == ls;
    }
  }

  lemma EachSnoc<T>(ls: seq<Line>, xs: seq<T>, f: T -> Line, i: nat)
    requires i < |xs|
    ensures ls + Each(xs[..i], f) + [f(xs[i])] == ls + Each(xs[..i + 1], f)
  {
    assert Each(xs[..i + 1], f) == Each(xs[..i], f) + [f(xs[i])];
  }

  method PushEach<T>(out: string, ghost ls: seq<Line>, xs: seq<T>, f: T -> Line) returns (more: string)
    requires out == TextOf(ls)
    ensures more == TextOf(ls + Each(xs, f))
  {
    more := out;
    assert ls + Each(xs[..0], f) == ls;
    for i := 0 to |xs|
      invariant more == TextOf(ls + Each(xs[..i], f))
    {
      more := Push(more, ls + Each(xs[..i], f), f(xs[i]));
      EachSnoc(ls, xs, f, i);
    }
    assert xs[..|xs|] == xs;
  }

  method PushTimes(out: string, ghost ls: seq<Line>, ts: seq<TimeDesc>) returns (more: string)
    requires out == TextOf(ls)
    ensures more == TextOf(ls + AllTimeLines(ts))
  {
    more := out;
    ghost var done := ls;
    assert ts[0..] == ts;
    for i := 0 to |ts|
      invariant more == TextOf(done) && done + AllTimeLines(ts[i..]) == ls + AllTimeLines(ts)
    {
      var t := ts[i];
      ghost var (first, second, third) :=
        ([T(TimeDesc(t.start, t.stop, [], None))], Each(t.repeats, RepeatLine), Opt(t.zone, ZoneLine));
      more := Push(more, done, T(TimeDesc(t.start, t.stop, [], None)));
      more := PushEach(more, done + first, t.repeats, RepeatLine);
      more := PushOpt(more, done + first + second, t.zone, ZoneLine);
      assert ts[i..][1..] == ts[i + 1..];
      Chain3(done, first, second, third, AllTimeLines(ts[i + 1..]));
      done := done + first + second + third;
    }
    assert done + [] == done;
  }

  lemma Chain3(a: seq<Line>, x: seq<Line>, y: seq<Line>, z: seq<Line>, rest: seq<Line>)
    ensures a + x + y + z + rest == a + (x + (y + z) + rest)
  {
  }

  method PushMediaRest(out: string, ghost ls: seq<Line>, m: Media) returns (more: string)
    requires out == TextOf(ls)
    ensures more == TextOf(ls + MediaRest(m))
  {
    ghost var (i, c, b, a, x) := (Opt(m.title, InfoLine), Opt(m.connection, ConnectionLine),
                                  Each(m.bandwidth, BandwidthLine),
                                  Each(m.attrs, AttributeLine), Each(m.extra, ExtraLine));
    more := PushOpt(out, ls, m.title, InfoLine);
    more := PushOpt(more, ls + i, m.connection, ConnectionLine);
    more := PushEach(more, ls + i + c, m.bandwidth, BandwidthLine);
    more := PushEach(more, ls + i + c + b, m.attrs, AttributeLine);
    more := PushEach(more, ls + i + c + b + a, m.extra, ExtraLine);
    Chain5(ls, i, c, b, a, x);
  }

  lemma Chain5(ls: seq<Line>, a: seq<Line>, b: seq<Line>, c: seq<Line>, d: seq<Line>, e: seq<Line>)
    ensures ls + a + b + c + d + e == ls + (a + (b + (c + (d + e))))
  {
  }

  method PushMedia(out: string, ghost ls: seq<Line>, ms: seq<Media>) returns (more: string)
    requires out == TextOf(ls)
    ensures more == TextOf(ls + AllMediaLines(ms))
  {
    more := out;
    ghost var done := ls;
    assert ms[0..] == ms;
    for i := 0 to |ms|
      invariant more == TextOf(done) && done + AllMediaLines(ms[i..]) == ls + AllMediaLines(ms)
    {
      var m := ms[i];
      more := Push(more, done, M(Header(m)));
      more := PushMediaRest(more, done + [M(Header(m))], m);
      assert ms[i..][1..] == ms[i + 1..];
      Chain2(done, [M(Header(m))], MediaRest(m), AllMediaLines(ms[i + 1..]));
      done := done + [M(Header(m))] + MediaRest(m);
    }
    assert done + [] == done;
  }

  lemma Chain2(a: seq<Line>, x: seq<Line>, y: seq<Line>, rest: seq<Line>)
    ensures a + x + y + rest == a + (x + y + rest)
  {
  }

  method PushTop(x: Session) returns (out: string)
    ensures out == TextOf(TopLines(x))
  {
    var (v, o, s) := (V(x.version), O(x.origin), S(x.name));
    out := PushFirst(v, o, s);
    out := PushOpt(out, [v, o, s], x.info, InfoLine);
    out := PushOpt(out, [v, o, s] + Opt(x.info, InfoLine), x.uri, UriLine);
    Chain1([v, o, s], Opt(x.info, InfoLine), Opt(x.uri, UriLine));
  }

  lemma Chain1(a: seq<Line>, b: seq<Line>, c: seq<Line>)
    ensures a + b + c == a + (b + c)
  {
  }

  method PushFirst(v: Line, o: Line, s: Line) returns (out: string)
    ensures out == TextOf([v, o, s])
  {
    out := Push([], [], v);
    out := Push(out, [] + [v], o);
    out := Push(out, [] + [v] + [o], s);
    assert [] + [v] + [o] + [s] == [v, o, s];
  }

  method PushContacts(out: string, ghost ls: seq<Line>, x: Session) returns (more: string)
    requires out == TextOf(ls)
    ensures more == TextOf(ls + ContactLines(x))
  {
    ghost var (e, p, c, w) := (Each(x.emails, EmailLine), Each(x.phones, PhoneLine), Opt(x.connection, ConnectionLine),
                               Each(x.bandwidth, BandwidthLine));
    more := PushEach(out, ls, x.emails, EmailLine);
    more := PushEach(more, ls + e, x.phones, PhoneLine);
    more := PushOpt(more, ls + e + p, x.connection, ConnectionLine);
    more := PushEach(more, ls + e + p + c, x.bandwidth, BandwidthLine);
    Chain4(ls, e, p, c, w);
  }

  lemma Chain4(ls: seq<Line>, a: seq<Line>, b: seq<Line>, c: seq<Line>, d: seq<Line>)
    ensures ls + a + b + c + d == ls + (a + (b + (c + d)))
  {
  }

  lemma Chain6(a: seq<Line>, b: seq<Line>, c: seq<Line>, d: seq<Line>, e: seq<Line>, f: seq<Line>)
    ensures a + b + c + d + e + f == a + (b + (c + ((d + e) + f)))
  {
  }

  /** The encoder: sections in a fixed order, every line ended by CRLF. */
  method EncodeText(x: Session) returns (out: string)
    ensures out == Encode(x)
  {
    var times := if x.times == [] then [TimeDesc(0, 0, [], None)] else x.times;
    ghost var done := TopLines(x);
    out := PushTop(x);
    out := PushContacts(out, done, x);
    done := done + ContactLines(x);
    out := PushTimes(out, done, times);
    done := done + AllTimeLines(times);
    out := PushEach(out, done, x.attrs, AttributeLine);
    done := done + Each(x.attrs, AttributeLine);
    out := PushEach(out, done, x.extra, ExtraLine);
    done := done + Each(x.extra, ExtraLine);
    out := PushMedia(out, done, x.media);
    Chain6(TopLines(x), ContactLines(x), AllTimeLines(times), Each(x.attrs, AttributeLine), Each(x.extra, ExtraLine),
           AllMediaLines(x.media));
  }
}
