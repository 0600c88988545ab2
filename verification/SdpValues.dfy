/** The values on the lines of a session description, their text and how it is read (section 5 of RFC 8866). */
module SdpValues {
  import opened Bytes
  import opened Text

  datatype SdpError = Missing(field: string) | Invalid(field: string) | ParseInt | BadAddrType

  const U16_LIMIT := 0x1_0000
  const U64_LIMIT := 0x1_0000_0000_0000_0000

  // ---------- Text that can stand on a line ----------

  /** No line break inside and no carriage return at the end. */
  predicate Clean(s: string) {
    '\n' !in s && (s == [] || s[|s| - 1] != '\r')
  }

  predicate AllWords(w: seq<string>) {
    forall i :: 0 <= i < |w| ==> IsWord(w[i])
  }

  lemma CleanWord(w: string)
    requires IsWord(w)
    ensures Clean(w)
  {
    assert IsSpace('\n') && IsSpace('\r');
  }

  lemma {:induction false} CleanJoin(w: seq<string>)
    requires AllWords(w)
    ensures Clean(Join(w))
  {
    if |w| == 1 {
      CleanWord(w[0]);
    } else if |w| > 1 {
      CleanWord(w[0]);
      CleanJoin(w[1..]);
      JoinEnds(w[1..]);
      CleanAfter(w[0], " " + Join(w[1..]));
    }
  }

  lemma CleanAfter(a: string, b: string)
    requires '\n' !in a && Clean(b) && b != []
    ensures Clean(a + b)
  {
  }

  lemma CleanTrimmed(s: string)
    requires '\n' !in s && Trimmed(s)
    ensures Clean(s)
  {
    assert IsSpace('\r');
  }

  // ---------- Address types ----------

  datatype AddrType = IP4 | IP6

  function ShowAddr(a: AddrType): (s: string)
    ensures IsWord(s)
  {
    if a.IP4? then "IP4" else "IP6"
  }

  function ReadAddr(s: string): Result<AddrType, SdpError> {
    if s == "IP4" then Ok(IP4) else if s == "IP6" then Ok(IP6) else Err(BadAddrType)
  }

  function ReadInt(s: string, limit: nat): (r: Result<nat, SdpError>)
    ensures r.Ok? ==> r.value < limit
  {
    var n := ParseUnsigned(s, 10, limit);
    if n.Some? then Ok(n.value) else Err(ParseInt)
  }

  lemma IntRead(n: nat, limit: nat)
    requires n < limit
    ensures ReadInt(Decimal(n), limit) == Ok(n)
  {
    ParseDecimal(n, limit);
  }

  // ---------- o= ----------

  datatype Origin = Origin(
    username: string, sessionId: u64, sessionVersion: u64, netType: string, addrType: AddrType, address: Option<string>)

  predicate WfOrigin(o: Origin) {
    IsWord(o.username) && IsWord(o.netType) && (o.address.Some? ==> IsWord(o.address.value))
  }

  function OriginWords(o: Origin): seq<string> {
    [o.username, Decimal(o.sessionId), Decimal(o.sessionVersion), o.netType, ShowAddr(o.addrType)]
  }

  /** An address is preceded by two spaces, and a missing one by one. */
  function ShowOrigin(o: Origin): string {
    Join(OriginWords(o)) + (" " + if o.address.Some? then " " + o.address.value else "")
  }

  function OriginOf(w: seq<string>): Result<Origin, SdpError> {
    if |w| < 5 then Err(Invalid("o="))
    else
      var id := ReadInt(w[1], U64_LIMIT);
      if id.Err? then Err(id.error)
      else
        var version := ReadInt(w[2], U64_LIMIT);
        if version.Err? then Err(version.error)
        else
          var addr := ReadAddr(w[4]);
          if addr.Err? then Err(addr.error)
          else Ok(Origin(w[0], id.value, version.value, w[3], addr.value, if |w| >= 6 then Some(w[5]) else None))
  }

  function ReadOrigin(s: string): (r: Result<Origin, SdpError>)
    ensures r.Ok? ==> WfOrigin(r.value)
  {
    OriginOf(Words(s))
  }

  lemma OriginWordsRead(o: Origin)
    requires WfOrigin(o)
    ensures OriginOf(OriginWords(o) + if o.address.Some? then [o.address.value] else []) == Ok(o)
  {
    IntRead(o.sessionId, U64_LIMIT);
    IntRead(o.sessionVersion, U64_LIMIT);
    FiveWords(o.username, Decimal(o.sessionId), Decimal(o.sessionVersion), ShowAddr(o.addrType), o);
  }

  lemma FiveWords(user: string, id: string, version: string, addr: string, o: Origin)
    requires user == o.username && ReadInt(id, U64_LIMIT) == Ok(o.sessionId)
    requires ReadInt(version, U64_LIMIT) == Ok(o.sessionVersion) && ReadAddr(addr) == Ok(o.addrType)
    ensures OriginOf([user, id, version, o.netType, addr] + if o.address.Some? then [o.address.value] else []) == Ok(o)
  {
    if o.address.Some? {
      OriginOfWords([user, id, version, o.netType, addr] + [o.address.value], o);
    } else {
      assert [user, id, version, o.netType, addr] + [] == [user, id, version, o.netType, addr];
      OriginOfWords([user, id, version, o.netType, addr], o);
    }
  }

  lemma OriginOfWords(w: seq<string>, o: Origin)
    requires |w| == 5 + (if o.address.Some? then 1 else 0) && w[0] == o.username && w[3] == o.netType
    requires ReadInt(w[1], U64_LIMIT) == Ok(o.sessionId) && ReadInt(w[2], U64_LIMIT) == Ok(o.sessionVersion)
    requires ReadAddr(w[4]) == Ok(o.addrType) && (o.address.Some? ==> w[5] == o.address.value)
    ensures OriginOf(w) == Ok(o)
  {
  }

  lemma OriginRead(o: Origin)
    requires WfOrigin(o)
    ensures ReadOrigin(ShowOrigin(o)) == Ok(o) && Clean(ShowOrigin(o))
  {
    var w := OriginWords(o);
    var tail := if o.address.Some? then " " + o.address.value else "";
    assert AllWords(w);
    WordsOfJoin(w);
    WordsApart(Join(w), tail);
    TailWords(o.address);
    OriginWordsRead(o);
    CleanJoin(w);
    CleanTail(Join(w), o.address);
  }

  lemma TailWords(address: Option<string>)
    requires address.Some? ==> IsWord(address.value)
    ensures Words(if address.Some? then " " + address.value else "") == if address.Some? then [address.value] else []
  {
    if address.Some? {
      WordsOfSpace(address.value);
      WordsCons(address.value, []);
      assert address.value + [] == address.value;
    }
  }

  lemma CleanTail(head: string, address: Option<string>)
    requires Clean(head) && (address.Some? ==> IsWord(address.value))
    ensures Clean(head + (" " + if address.Some? then " " + address.value else ""))
  {
    if address.Some? {
      CleanWord(address.value);
    }
  }

  // ---------- c= ----------

  datatype Connection = Connection(netType: string, addrType: AddrType, address: string)

  predicate WfConnection(c: Connection) {
    IsWord(c.netType) && IsWord(c.address)
  }

  function ShowConnection(c: Connection): string {
    Join([c.netType, ShowAddr(c.addrType), c.address])
  }

  function ReadConnection(s: string): (r: Result<Connection, SdpError>)
    ensures r.Ok? ==> WfConnection(r.value)
  {
    ConnectionOf(Words(s))
  }

  function ConnectionOf(w: seq<string>): Result<Connection, SdpError> {
    if |w| != 3 then Err(Invalid("c="))
    else
      var addr := ReadAddr(w[1]);
      if addr.Err? then Err(addr.error) else Ok(Connection(w[0], addr.value, w[2]))
  }

  lemma ConnectionRead(c: Connection)
    requires WfConnection(c)
    ensures ReadConnection(ShowConnection(c)) == Ok(c) && Clean(ShowConnection(c))
  {
    var w := [c.netType, ShowAddr(c.addrType), c.address];
    assert AllWords(w);
    WordsOfJoin(w);
    CleanJoin(w);
    ConnectionWordsRead(c);
  }

  lemma ConnectionWordsRead(c: Connection)
    ensures ConnectionOf([c.netType, ShowAddr(c.addrType), c.address]) == Ok(c)
  {
  }

  // ---------- b= ----------

  datatype Bandwidth = Bandwidth(kind: string, value: u64)

  predicate WfBandwidth(b: Bandwidth) {
    ':' !in b.kind && '\n' !in b.kind
  }

  function ShowBandwidth(b: Bandwidth): string {
    b.kind + ([':'] + Decimal(b.value))
  }

  function ReadBandwidth(s: string): (r: Result<Bandwidth, SdpError>)
    ensures r.Ok? && '\n' !in s ==> WfBandwidth(r.value)
  {
    var i := IndexOf(s, ':');
    if i == |s| then Err(Invalid("b="))
    else
      var n := ReadInt(s[i + 1..], U64_LIMIT);
      if n.Err? then Err(n.error) else Ok(Bandwidth(s[..i], n.value))
  }

  lemma SplitAt(a: string, c: char, b: string)
    requires c !in a
    ensures var s := a + ([c] + b); IndexOf(s, c) == |a| && s[..|a|] == a && s[|a| + 1..] == b
  {
    IndexOfFirst(a, c, b);
  }

  lemma BandwidthRead(b: Bandwidth)
    requires WfBandwidth(b)
    ensures ReadBandwidth(ShowBandwidth(b)) == Ok(b) && Clean(ShowBandwidth(b))
  {
    SplitAt(b.kind, ':', Decimal(b.value));
    IntRead(b.value, U64_LIMIT);
    CleanWord(Decimal(b.value));
  }

  // ---------- Ports ----------

  datatype PortSpec = PortSpec(base: u16, num: Option<u16>)

  function ShowPort(p: PortSpec): string {
    if p.num.Some? then Decimal(p.base) + (['/'] + Decimal(p.num.value)) else Decimal(p.base)
  }

  function ReadPort(s: string): Result<PortSpec, SdpError> {
    var i := IndexOf(s, '/');
    if i == |s| then
      var n := ReadInt(s, U16_LIMIT);
      if n.Err? then Err(n.error) else Ok(PortSpec(n.value, None))
    else
      var base := ReadInt(s[..i], U16_LIMIT);
      if base.Err? then Err(base.error)
      else
        var num := ReadInt(s[i + 1..], U16_LIMIT);
        if num.Err? then Err(num.error) else Ok(PortSpec(base.value, Some(num.value)))
  }

  lemma NoSlash(n: nat)
    ensures '/' !in Decimal(n)
  {
    assert Digit('/') == 16;
  }

  lemma PairRead(a: string, b: string, x: u16, y: u16)
    requires '/' !in a && ReadInt(a, U16_LIMIT) == Ok(x) && ReadInt(b, U16_LIMIT) == Ok(y)
    ensures ReadPort(a + (['/'] + b)) == Ok(PortSpec(x, Some(y)))
  {
    SplitAt(a, '/', b);
  }

  lemma SingleRead(a: string, x: u16)
    requires '/' !in a && ReadInt(a, U16_LIMIT) == Ok(x)
    ensures ReadPort(a) == Ok(PortSpec(x, None))
  {
    IndexOfNone(a, '/');
  }

  lemma WordAround(a: string, c: char, b: string)
    requires IsWord(a) && IsWord(b) && !IsSpace(c)
    ensures IsWord(a + ([c] + b))
  {
  }

  lemma PortRead(p: PortSpec)
    ensures ReadPort(ShowPort(p)) == Ok(p) && IsWord(ShowPort(p))
  {
    NoSlash(p.base);
    IntRead(p.base, U16_LIMIT);
    if p.num.Some? {
      IntRead(p.num.value, U16_LIMIT);
      PairRead(Decimal(p.base), Decimal(p.num.value), p.base, p.num.value);
      WordAround(Decimal(p.base), '/', Decimal(p.num.value));
    } else {
      SingleRead(Decimal(p.base), p.base);
    }
  }

  // ---------- t= ----------

  datatype TimeDesc = TimeDesc(start: u64, stop: u64, repeats: seq<string>, zone: Option<string>)

  function ShowTime(start: u64, stop: u64): string {
    Join([Decimal(start), Decimal(stop)])
  }

  function ReadTime(s: string): (r: Result<TimeDesc, SdpError>)
    ensures r.Ok? ==> r.value.repeats == [] && r.value.zone == None
  {
    var w := Words(s);
    if |w| < 2 then Err(Invalid("t="))
    else
      var start := ReadInt(w[0], U64_LIMIT);
      if start.Err? then Err(start.error)
      else
        var stop := ReadInt(w[1], U64_LIMIT);
        if stop.Err? then Err(stop.error) else Ok(TimeDesc(start.value, stop.value, [], None))
  }

  lemma TimeRead(start: u64, stop: u64)
    ensures ReadTime(ShowTime(start, stop)) == Ok(TimeDesc(start, stop, [], None)) && Clean(ShowTime(start, stop))
  {
    var w := [Decimal(start), Decimal(stop)];
    WordsOfJoin(w);
    CleanJoin(w);
    IntRead(start, U64_LIMIT);
    IntRead(stop, U64_LIMIT);
  }

  // ---------- a= ----------

  datatype Attribute = Attribute(key: string, value: Option<string>)

  predicate WfAttribute(a: Attribute) {
    && ':' !in a.key && '\n' !in a.key && Trimmed(a.key)
    && (a.value.Some? ==> '\n' !in a.value.value && Trimmed(a.value.value))
  }

  function ShowAttribute(a: Attribute): string {
    if a.value.Some? then a.key + ([':'] + a.value.value) else a.key
  }

  lemma TrimInside(s: string)
    ensures forall c :: c in Trim(s) ==> c in s
  {
    TrimStartInside(s);
    assert Trim(s) <= TrimStart(s);
  }

  lemma {:induction false} TrimStartInside(s: string)
    ensures forall c :: c in TrimStart(s) ==> c in s
  {
    if s != [] && IsSpace(s[0]) {
      TrimStartInside(s[1..]);
    }
  }

  function ReadAttribute(s: string): Attribute {
    var i := IndexOf(s, ':');
    if i == |s| then Attribute(Trim(s), None) else Attribute(Trim(s[..i]), Some(Trim(s[i + 1..])))
  }

  lemma ReadAttributeWf(s: string)
    requires '\n' !in s
    ensures WfAttribute(ReadAttribute(s))
  {
    var i := IndexOf(s, ':');
    assert s[..|s|] == s;
    TrimIff(s[..i]);
    TrimInside(s[..i]);
    if i < |s| {
      TrimIff(s[i + 1..]);
      TrimInside(s[i + 1..]);
    }
  }

  lemma AttributeRead(a: Attribute)
    requires WfAttribute(a)
    ensures ReadAttribute(ShowAttribute(a)) == a && Clean(ShowAttribute(a))
  {
    TrimIff(a.key);
    CleanTrimmed(a.key);
    if a.value.Some? {
      SplitAt(a.key, ':', a.value.value);
      TrimIff(a.value.value);
      CleanTrimmed(a.value.value);
    } else {
      IndexOfNone(a.key, ':');
    }
  }

  // ---------- m= ----------

  datatype MediaKind = Audio | Video | TextKind | Application | Message | Other(name: string)

  function ShowKind(k: MediaKind): string {
    match k
    case Audio => "audio"
    case Video => "video"
    case TextKind => "text"
    case Application => "application"
    case Message => "message"
    case Other(name) => name
  }

  function ReadKind(s: string): MediaKind {
    if s == "audio" then Audio
    else if s == "video" then Video
    else if s == "text" then TextKind
    else if s == "application" then Application
    else if s == "message" then Message
    else Other(s)
  }

  datatype Media = Media(
    kind: MediaKind, port: PortSpec, proto: string, fmts: seq<string>,
    title: Option<string>, connection: Option<Connection>, bandwidth: seq<Bandwidth>,
    attrs: seq<Attribute>, extra: seq<string>)

  /** What stands on the m= line itself. */
  predicate WfHeader(m: Media) {
    ReadKind(ShowKind(m.kind)) == m.kind && IsWord(ShowKind(m.kind)) && IsWord(m.proto) && AllWords(m.fmts)
  }

  /** The media section before any further line belongs to it. */
  function Header(m: Media): Media {
    m.(title := None, connection := None, bandwidth := [], attrs := [], extra := [])
  }

  function ShowHeader(m: Media): string {
    Join([ShowKind(m.kind), ShowPort(m.port), m.proto] + m.fmts)
  }

  lemma KindShown(s: string)
    ensures ShowKind(ReadKind(s)) == s
  {
  }

  lemma ReadMediaWf(s: string)
    requires ReadMedia(s).Ok?
    ensures WfHeader(ReadMedia(s).value)
  {
    KindShown(Words(s)[0]);
  }

  function ReadMedia(s: string): (r: Result<Media, SdpError>)
    ensures r.Ok? ==> r.value == Header(r.value)
  {
    MediaOf(Words(s))
  }

  function MediaOf(w: seq<string>): Result<Media, SdpError> {
    if |w| < 1 then Err(Invalid("m="))
    else if |w| < 2 then Err(Invalid("m= port"))
    else
      var port := ReadPort(w[1]);
      if port.Err? then Err(port.error)
      else if |w| < 3 then Err(Invalid("m= proto"))
      else Ok(Media(ReadKind(w[0]), port.value, w[2], w[3..], None, None, [], [], []))
  }

  lemma HeaderWordsRead(kind: string, port: string, m: Media)
    requires ReadKind(kind) == m.kind && ReadPort(port) == Ok(m.port)
    ensures MediaOf([kind, port, m.proto] + m.fmts) == Ok(Header(m))
  {
    assert ([kind, port, m.proto] + m.fmts)[3..] == m.fmts;
  }

  lemma HeaderRead(m: Media)
    requires WfHeader(m)
    ensures ReadMedia(ShowHeader(m)) == Ok(Header(m)) && Clean(ShowHeader(m))
  {
    var (kind, port) := (ShowKind(m.kind), ShowPort(m.port));
    HeaderWords(m, kind, port);
    JoinedRead([kind, port, m.proto] + m.fmts);
    HeaderWordsRead(kind, port, m);
  }

  lemma HeaderWords(m: Media, kind: string, port: string)
    requires WfHeader(m) && kind == ShowKind(m.kind) && port == ShowPort(m.port)
    ensures AllWords([kind, port, m.proto] + m.fmts) && ReadKind(kind) == m.kind && ReadPort(port) == Ok(m.port)
  {
    PortRead(m.port);
    ThreeMore(kind, port, m.proto, m.fmts);
  }

  lemma ThreeMore(a: string, b: string, c: string, rest: seq<string>)
    requires IsWord(a) && IsWord(b) && IsWord(c) && AllWords(rest)
    ensures AllWords([a, b, c] + rest)
  {
  }

  lemma JoinedRead(w: seq<string>)
    requires AllWords(w)
    ensures Words(Join(w)) == w && Clean(Join(w))
  {
    WordsOfJoin(w);
    CleanJoin(w);
  }
}
