/** Whole session descriptions: the line-oriented parser and the encoder (src/sdp/sdpc.rs). */
module Sdp {
  import opened Bytes
  import opened Text
  import opened SdpValues

  // ---------- Lines ----------

  /** A line by what it means; X keeps a line whose prefix is not known. */
  datatype Line =
    | V(version: byte)
    | O(origin: Origin)
    | S(text: string)
    | I(text: string)
    | U(text: string)
    | E(text: string)
    | P(text: string)
    | C(connection: Connection)
    | B(bandwidth: Bandwidth)
    | T(time: TimeDesc)
    | R(text: string)
    | Z(text: string)
    | M(media: Media)
    | A(attribute: Attribute)
    | X(text: string)

  type Reader = string -> Result<Line, SdpError>

  function ReadVersion(s: string): Result<Line, SdpError> {
    var n := ReadInt(s, 0x100);
    if n.Ok? then Ok(V(n.value)) else Err(n.error)
  }

  /** How the right-hand side is read after a known prefix. */
  function ReaderFor(prefix: string): Option<Reader> {
    if prefix == "v" then Some(s => ReadVersion(s))
    else if prefix == "o" then Some(s => var r := ReadOrigin(s); if r.Ok? then Ok(O(r.value)) else Err(r.error))
    else if prefix == "s" then Some(s => Ok(S(s)))
    else if prefix == "i" then Some(s => Ok(I(s)))
    else if prefix == "u" then Some(s => Ok(U(s)))
    else if prefix == "e" then Some(s => Ok(E(s)))
    else if prefix == "p" then Some(s => Ok(P(s)))
    else if prefix == "c" then Some(s => var r := ReadConnection(s); if r.Ok? then Ok(C(r.value)) else Err(r.error))
    else if prefix == "b" then Some(s => var r := ReadBandwidth(s); if r.Ok? then Ok(B(r.value)) else Err(r.error))
    else if prefix == "t" then Some(s => var r := ReadTime(s); if r.Ok? then Ok(T(r.value)) else Err(r.error))
    else if prefix == "r" then Some(s => Ok(R(s)))
    else if prefix == "z" then Some(s => Ok(Z(s)))
    else if prefix == "m" then Some(s => var r := ReadMedia(s); if r.Ok? then Ok(M(r.value)) else Err(r.error))
    else if prefix == "a" then Some(s => Ok(A(ReadAttribute(s))))
    else None
  }

  /** Reads one line; a line without an equals sign means nothing. */
  function ReadLine(line: string): Result<Option<Line>, SdpError> {
    var i := IndexOf(line, '=');
    if i == |line| then Ok(None)
    else
      var reader := ReaderFor(line[..i]);
      if reader.None? then Ok(Some(X(line)))
      else
        var r: Result<Line, SdpError> := reader.value(line[i + 1..]);
        if r.Ok? then Ok(Some(r.value)) else Err(r.error)
  }

  function Prefix(l: Line): string {
    match l
    case V(_) => "v"
    case O(_) => "o"
    case S(_) => "s"
    case I(_) => "i"
    case U(_) => "u"
    case E(_) => "e"
    case P(_) => "p"
    case C(_) => "c"
    case B(_) => "b"
    case T(_) => "t"
    case R(_) => "r"
    case Z(_) => "z"
    case M(_) => "m"
    case A(_) => "a"
    case X(_) => ""
  }

  function Body(l: Line): string {
    match l
    case V(version) => Decimal(version)
    case O(origin) => ShowOrigin(origin)
    case C(connection) => ShowConnection(connection)
    case B(bandwidth) => ShowBandwidth(bandwidth)
    case T(time) => ShowTime(time.start, time.stop)
    case M(media) => ShowHeader(media)
    case A(attribute) => ShowAttribute(attribute)
    case _ => l.text
  }

  function Show(l: Line): string {
    if l.X? then l.text else Prefix(l) + (['='] + Body(l))
  }

  /** A line that the parser can have read. */
  predicate WfLine(l: Line) {
    match l
    case V(_) => true
    case O(origin) => WfOrigin(origin)
    case C(connection) => WfConnection(connection)
    case B(bandwidth) => WfBandwidth(bandwidth)
    case T(time) => time.repeats == [] && time.zone == None
    case M(media) => WfHeader(media) && media == Header(media)
    case A(attribute) => WfAttribute(attribute)
    case X(text) => Clean(text) && WfExtra(text)
    case _ => Clean(l.text)
  }

  /** An unknown prefix before an equals sign. */
  predicate WfExtra(line: string) {
    var i := IndexOf(line, '=');
    i < |line| && ReaderFor(line[..i]).None?
  }

  lemma ReadKnown(prefix: string, body: string, reader: Reader)
    requires '=' !in prefix && ReaderFor(prefix) == Some(reader)
    ensures ReadLine(prefix + (['='] + body)) ==
      var r := reader(body); if r.Ok? then Ok(Some(r.value)) else Err(r.error)
  {
    SplitAt(prefix, '=', body);
  }

  lemma CleanLine(prefix: string, body: string)
    requires '\n' !in prefix && Clean(body)
    ensures Clean(prefix + (['='] + body))
  {
  }

  predicate Textual(l: Line) {
    l.S? || l.I? || l.U? || l.E? || l.P? || l.R? || l.Z?
  }

  lemma TextualRead(l: Line)
    requires Textual(l)
    ensures ReaderFor(Prefix(l)).Some? && ReaderFor(Prefix(l)).value(Body(l)) == Ok(l)
  {
  }

  /** What is read behind a line's prefix is the line. */
  predicate ReadsBack(l: Line) {
    Clean(Body(l)) && ReaderFor(Prefix(l)).Some? && ReaderFor(Prefix(l)).value(Body(l)) == Ok(l)
  }

  lemma VersionRead(l: Line)
    requires l.V?
    ensures ReadsBack(l)
  {
    IntRead(l.version, 0x100);
    CleanWord(Decimal(l.version));
  }

  lemma AddressRead(l: Line)
    requires (l.O? || l.C?) && WfLine(l)
    ensures ReadsBack(l)
  {
    if l.O? {
      OriginRead(l.origin);
    } else {
      ConnectionRead(l.connection);
    }
  }

  lemma NumberRead(l: Line)
    requires (l.B? || l.T?) && WfLine(l)
    ensures ReadsBack(l)
  {
    if l.B? {
      BandwidthRead(l.bandwidth);
    } else {
      TimeRead(l.time.start, l.time.stop);
    }
  }

  lemma MediaRead(l: Line)
    requires l.M? && WfLine(l)
    ensures ReadsBack(l)
  {
    HeaderRead(l.media);
  }

  lemma AttributeLineRead(l: Line)
    requires l.A? && WfLine(l)
    ensures ReadsBack(l)
  {
    AttributeRead(l.attribute);
  }

  lemma BodyRead(l: Line)
    requires WfLine(l) && !l.X?
    ensures ReadsBack(l)
  {
    if Textual(l) {
      TextualRead(l);
    } else if l.V? {
      VersionRead(l);
    } else if l.O? || l.C? {
      AddressRead(l);
    } else if l.B? || l.T? {
      NumberRead(l);
    } else if l.M? {
      MediaRead(l);
    } else {
      AttributeLineRead(l);
    }
  }

  lemma PrefixPlain(l: Line)
    ensures '=' !in Prefix(l) && '\n' !in Prefix(l)
  {
  }

  lemma ShowRead(l: Line)
    requires WfLine(l)
    ensures ReadLine(Show(l)) == Ok(Some(l)) && Clean(Show(l)) && Show(l) != []
  {
    if !l.X? {
      BodyRead(l);
      PrefixPlain(l);
      ReadKnown(Prefix(l), Body(l), ReaderFor(Prefix(l)).value);
      CleanLine(Prefix(l), Body(l));
    }
  }

  lemma RestClean(line: string, i: nat)
    requires Clean(line) && i < |line|
    ensures Clean(line[i + 1..])
  {
  }

  lemma KnownWf(prefix: string, body: string, l: Line)
    requires ReaderFor(prefix).Some? && ReaderFor(prefix).value(body) == Ok(l) && Clean(body)
    ensures WfLine(l)
  {
    if l.A? {
      ReadAttributeWf(body);
    } else if l.M? {
      ReadMediaWf(body);
    }
  }

  /** What is read from a clean line is well formed. */
  lemma ReadLineWf(line: string)
    requires Clean(line) && ReadLine(line).Ok? && ReadLine(line).value.Some?
    ensures WfLine(ReadLine(line).value.value)
  {
    var i := IndexOf(line, '=');
    if ReaderFor(line[..i]).Some? {
      RestClean(line, i);
      KnownWf(line[..i], line[i + 1..], ReadLine(line).value.value);
    }
  }
}
