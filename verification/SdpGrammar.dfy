/**
 Which texts parse as a session description, in terms of their lines alone, and that it does not matter how the
 lines end (src/sdp/sdpc.rs; section 5 of RFC 8866).
 */
module SdpGrammar {
  import opened Bytes
  import opened Text
  import opened SdpValues
  import opened Sdp
  import opened SdpSession

  // ---------- Line ends ----------

  /** Every line feed preceded by one more carriage return. */
  function CrLf(text: string): string {
    if text == [] then [] else (if text[0] == '\n' then "\r\n" else [text[0]]) + CrLf(text[1..])
  }

  lemma {:induction false} CrLfLine(a: string, rest: string)
    requires '\n' !in a
    ensures CrLf(a + (['\n'] + rest)) == (a + "\r") + (['\n'] + CrLf(rest))
  {
    var s := a + (['\n'] + rest);
    if a == [] {
      assert s[1..] == rest;
    } else {
      assert s[1..] == a[1..] + (['\n'] + rest) && s[0] == a[0] && a == [a[0]] + a[1..];
      CrLfLine(a[1..], rest);
    }
  }

  lemma {:induction false} CrLfNone(a: string)
    requires '\n' !in a
    ensures CrLf(a) == a
  {
    if a != [] {
      CrLfNone(a[1..]);
    }
  }

  lemma DropMore(raw: string)
    ensures DropTrailing(raw + "\r", '\r') == DropTrailing(raw, '\r')
  {
    assert (raw + "\r")[..|raw|] == raw;
  }

  lemma FeedReturn(b: Builder, raw: string, rest: seq<string>, rest': seq<string>)
    requires Feed(b, raw).Ok? ==> FeedAll(Feed(b, raw).value, rest) == FeedAll(Feed(b, raw).value, rest')
    ensures FeedAll(b, [raw] + rest) == FeedAll(b, [raw + "\r"] + rest')
  {
    DropMore(raw);
    FeedCons(b, raw, rest);
    FeedCons(b, raw + "\r", rest');
  }

  lemma SplitAtFeed(text: string) returns (a: string, rest: string)
    requires '\n' in text
    ensures text == a + (['\n'] + rest) && '\n' !in a && |rest| < |text|
  {
    var i := IndexOf(text, '\n');
    assert text[..|text|] == text;
    a, rest := text[..i], text[i + 1..];
  }

  lemma {:induction false} FeedCrLf(b: Builder, text: string)
    ensures FeedAll(b, SplitOn(CrLf(text), '\n')) == FeedAll(b, SplitOn(text, '\n'))
    decreases |text|
  {
    if '\n' in text {
      var a, rest := SplitAtFeed(text);
      CrLfLine(a, rest);
      SplitOnCons(a, '\n', rest);
      SplitOnCons(a + "\r", '\n', CrLf(rest));
      if Feed(b, a).Ok? {
        FeedCrLf(Feed(b, a).value, rest);
      }
      FeedReturn(b, a, SplitOn(rest, '\n'), SplitOn(CrLf(rest), '\n'));
    } else {
      CrLfNone(text);
    }
  }

  /** Every text parses to the same with its lines ended by CRLF. */
  lemma LineEndsAlike(text: string)
    ensures Parse(CrLf(text)) == Parse(text)
  {
    FeedCrLf(BLANK, text);
  }

  // ---------- Lines that can be read ----------

  predicate OnlyDigits(s: string) {
    forall i :: 0 <= i < |s| ==> '0' <= s[i] <= '9'
  }

  /** Decimal digits, perhaps after a plus sign, of a number below the limit. */
  predicate IsNumber(s: string, limit: nat) {
    var digits := if s != [] && s[0] == '+' then s[1..] else s;
    digits != [] && OnlyDigits(digits) && Value(digits, 10) < limit
  }

  predicate IsAddr(s: string) {
    s == "IP4" || s == "IP6"
  }

  /** A number of 16 bits, or two with a slash between them. */
  predicate IsPort(s: string) {
    if '/' !in s then IsNumber(s, 65536)
    else var i := IndexOf(s, '/'); IsNumber(s[..i], 65536) && IsNumber(s[i + 1..], 65536)
  }

  predicate IsOrigin(w: seq<string>) {
    |w| >= 5 && IsNumber(w[1], 0x1_0000_0000_0000_0000) && IsNumber(w[2], 0x1_0000_0000_0000_0000) && IsAddr(w[4])
  }

  predicate IsConnection(w: seq<string>) {
    |w| == 3 && IsAddr(w[1])
  }

  predicate IsBandwidth(s: string) {
    ':' in s && IsNumber(s[IndexOf(s, ':') + 1..], 0x1_0000_0000_0000_0000)
  }

  predicate IsTimes(w: seq<string>) {
    |w| >= 2 && IsNumber(w[0], 0x1_0000_0000_0000_0000) && IsNumber(w[1], 0x1_0000_0000_0000_0000)
  }

  predicate IsMedia(w: seq<string>) {
    |w| >= 3 && IsPort(w[1])
  }

  /** What has to stand behind the equals sign; most kinds of line take anything. */
  predicate Readable(kind: char, value: string) {
    match kind
    case 'v' => IsNumber(value, 256)
    case 'o' => IsOrigin(Words(value))
    case 'c' => IsConnection(Words(value))
    case 'b' => IsBandwidth(value)
    case 't' => IsTimes(Words(value))
    case 'm' => IsMedia(Words(value))
    case _ => true
  }

  lemma DigitIff(c: char)
    ensures Digit(c) < 10 <==> '0' <= c <= '9'
  {
  }

  lemma DigitsIff(s: string)
    ensures AllDigits(s, 10) <==> OnlyDigits(s)
  {
    forall i | 0 <= i < |s| ensures Digit(s[i]) < 10 <==> '0' <= s[i] <= '9' {
      DigitIff(s[i]);
    }
  }

  lemma NumberIff(s: string, limit: nat)
    ensures ReadInt(s, limit).Ok? <==> IsNumber(s, limit)
  {
    DigitsIff(StripPlus(s));
  }

  lemma IndexOfIff(s: string, c: char)
    ensures IndexOf(s, c) < |s| <==> c in s
  {
    assert s[..|s|] == s;
  }

  lemma OriginIff(w: seq<string>)
    ensures OriginOf(w).Ok? <==> IsOrigin(w)
  {
    if |w| >= 5 {
      NumberIff(w[1], U64_LIMIT);
      NumberIff(w[2], U64_LIMIT);
    }
  }

  lemma BandwidthIff(s: string)
    ensures ReadBandwidth(s).Ok? <==> IsBandwidth(s)
  {
    IndexOfIff(s, ':');
    if ':' in s {
      NumberIff(s[IndexOf(s, ':') + 1..], U64_LIMIT);
    }
  }

  lemma TimeIff(s: string)
    ensures ReadTime(s).Ok? <==> IsTimes(Words(s))
  {
    var w := Words(s);
    if |w| >= 2 {
      NumberIff(w[0], U64_LIMIT);
      NumberIff(w[1], U64_LIMIT);
    }
  }

  lemma PortIff(s: string)
    ensures ReadPort(s).Ok? <==> IsPort(s)
  {
    IndexOfIff(s, '/');
    NumberIff(s, U16_LIMIT);
    if '/' in s {
      var i := IndexOf(s, '/');
      NumberIff(s[..i], U16_LIMIT);
      NumberIff(s[i + 1..], U16_LIMIT);
    }
  }

  lemma MediaIff(w: seq<string>)
    ensures MediaOf(w).Ok? <==> IsMedia(w)
  {
    if |w| >= 2 {
      PortIff(w[1]);
    }
  }

  /** The letter in front of a line; a kept line has none. */
  function Letter(l: Line): Option<char> {
    match l
    case V(_) => Some('v')
    case O(_) => Some('o')
    case S(_) => Some('s')
    case I(_) => Some('i')
    case U(_) => Some('u')
    case E(_) => Some('e')
    case P(_) => Some('p')
    case C(_) => Some('c')
    case B(_) => Some('b')
    case T(_) => Some('t')
    case R(_) => Some('r')
    case Z(_) => Some('z')
    case M(_) => Some('m')
    case A(_) => Some('a')
    case X(_) => None
  }

  predicate Known(kind: char) {
    kind in {'v', 'o', 's', 'i', 'u', 'e', 'p', 'c', 'b', 't', 'r', 'z', 'm', 'a'}
  }

  /** The value was read exactly if it is readable, to a line of this kind. */
  predicate ReadAs(kind: char, value: string, r: Result<Line, SdpError>) {
    (r.Ok? <==> Readable(kind, value)) && (r.Ok? ==> Letter(r.value) == Some(kind))
  }

  lemma VersionReadAs(value: string)
    ensures ReaderFor("v").Some? && ReadAs('v', value, ReaderFor("v").value(value))
  {
    NumberIff(value, 256);
  }

  lemma OriginReadAs(value: string)
    ensures ReaderFor("o").Some? && ReadAs('o', value, ReaderFor("o").value(value))
  {
    OriginIff(Words(value));
  }

  lemma ConnectionReadAs(value: string)
    ensures ReaderFor("c").Some? && ReadAs('c', value, ReaderFor("c").value(value))
  {
  }

  lemma BandwidthReadAs(value: string)
    ensures ReaderFor("b").Some? && ReadAs('b', value, ReaderFor("b").value(value))
  {
    BandwidthIff(value);
  }

  lemma TimeReadAs(value: string)
    ensures ReaderFor("t").Some? && ReadAs('t', value, ReaderFor("t").value(value))
  {
    TimeIff(value);
  }

  function MediaLine(r: Result<Media, SdpError>): Result<Line, SdpError> {
    if r.Ok? then Ok(M(r.value)) else Err(r.error)
  }

  lemma MediaReader(value: string)
    ensures ReaderFor("m").Some? && ReaderFor("m").value(value) == MediaLine(ReadMedia(value))
  {
  }

  lemma MediaLineAs(value: string, r: Result<Line, SdpError>)
    requires r == MediaLine(ReadMedia(value))
    ensures ReadAs('m', value, r)
  {
    MediaIff(Words(value));
  }

  lemma MediaReadAs(value: string)
    ensures ReaderFor("m").Some? && ReadAs('m', value, ReaderFor("m").value(value))
  {
    MediaReader(value);
    MediaLineAs(value, ReaderFor("m").value(value));
  }

  lemma TextReadAs(kind: char, value: string)
    requires kind in {'s', 'i', 'u', 'e'}
    ensures ReaderFor([kind]).Some? && ReadAs(kind, value, ReaderFor([kind]).value(value))
  {
  }

  lemma MoreTextReadAs(kind: char, value: string)
    requires kind in {'p', 'r', 'z', 'a'}
    ensures ReaderFor([kind]).Some? && ReadAs(kind, value, ReaderFor([kind]).value(value))
  {
  }

  lemma ReaderIff(kind: char, value: string)
    requires Known(kind)
    ensures ReaderFor([kind]).Some? && ReadAs(kind, value, ReaderFor([kind]).value(value))
  {
    match kind
    case 'v' => VersionReadAs(value);
    case 'o' => OriginReadAs(value);
    case 'c' => ConnectionReadAs(value);
    case 'b' => BandwidthReadAs(value);
    case 't' => TimeReadAs(value);
    case 'm' => MediaReadAs(value);
    case 's' | 'i' | 'u' | 'e' => TextReadAs(kind, value);
    case _ => MoreTextReadAs(kind, value);
  }

  lemma UnknownPrefix(prefix: string)
    requires |prefix| != 1 || !Known(prefix[0])
    ensures ReaderFor(prefix).None?
  {
  }

  /** The letter in front of the first equals sign, where there is just one and it is known. */
  function KindOf(raw: string): (kind: Option<char>)
    ensures kind.Some? ==> Known(kind.value)
  {
    var line := DropTrailing(raw, '\r');
    if |line| >= 2 && line[1] == '=' && Known(line[0]) then Some(line[0]) else None
  }

  /** A line of a known kind has a value that can be read. */
  predicate LineReads(raw: string) {
    KindOf(raw).Some? ==> Readable(KindOf(raw).value, DropTrailing(raw, '\r')[2..])
  }

  predicate ReadRight(raw: string, r: Result<Option<Line>, SdpError>) {
    (r.Ok? <==> LineReads(raw)) && (r.Ok? ==> KindOf(raw) == if r.value.Some? then Letter(r.value.value) else None)
  }

  lemma KnownRead(line: string)
    requires |line| >= 2 && line[1] == '=' && Known(line[0])
    ensures ReaderFor([line[0]]).Some?
    ensures ReadLine(line) ==
      var r := ReaderFor([line[0]]).value(line[2..]); if r.Ok? then Ok(Some(r.value)) else Err(r.error)
  {
    ReaderIff(line[0], line[2..]);
    assert line == [line[0]] + (['='] + line[2..]);
    ReadKnown([line[0]], line[2..], ReaderFor([line[0]]).value);
  }

  lemma UnknownRead(line: string)
    requires !(|line| >= 2 && line[1] == '=' && Known(line[0]))
    ensures ReadLine(line) == Ok(None) || ReadLine(line) == Ok(Some(X(line)))
  {
    var i := IndexOf(line, '=');
    if i < |line| {
      UnknownPrefix(line[..i]);
    }
  }

  /** How a raw line is read, by its letter and its value. */
  lemma RawIff(raw: string)
    ensures ReadRight(raw, ReadLine(DropTrailing(raw, '\r')))
  {
    var line := DropTrailing(raw, '\r');
    if KindOf(raw).Some? {
      KnownRead(line);
      ReaderIff(line[0], line[2..]);
    } else {
      UnknownRead(line);
    }
  }

  // ---------- Texts that parse ----------

  predicate AllRead(raws: seq<string>) {
    forall i :: 0 <= i < |raws| ==> LineReads(raws[i])
  }

  /** Some line is of this kind. */
  predicate Has(raws: seq<string>, kind: char) {
    exists i :: 0 <= i < |raws| && KindOf(raws[i]) == Some(kind)
  }

  /** The line refines a time. */
  predicate Refines(raw: string) {
    KindOf(raw) == Some('r') || KindOf(raw) == Some('z')
  }

  predicate TimelyAt(raws: seq<string>, timed: bool, i: nat)
    requires i < |raws|
  {
    Refines(raws[i]) ==> timed || Has(raws[..i], 't')
  }

  /** Every line that refines a time has one before it. */
  predicate Timely(raws: seq<string>, timed: bool) {
    forall i :: 0 <= i < |raws| ==> TimelyAt(raws, timed, i)
  }

  lemma StepIff(b: Builder, l: Line)
    ensures Step(b, l).Ok? <==> (l.R? || l.Z? ==> b.times != [])
  {
  }

  /** One line is taken in exactly if it can be read and, when it refines a time, there is one. */
  lemma FeedIff(b: Builder, raw: string)
    ensures Feed(b, raw).Ok? <==> LineReads(raw) && (Refines(raw) ==> b.times != [])
  {
    RawIff(raw);
    var r := ReadLine(DropTrailing(raw, '\r'));
    if r.Ok? && r.value.Some? {
      StepIff(b, r.value.value);
    }
  }

  /** The builder keeps what a line of this kind gives. */
  predicate Keeps(b: Builder, kind: char) {
    match kind
    case 'v' => b.version.Some?
    case 'o' => b.origin.Some?
    case 's' => b.name.Some?
    case 't' => b.times != []
    case _ => false
  }

  predicate IsKept(kind: char) {
    kind == 'v' || kind == 'o' || kind == 's' || kind == 't'
  }

  lemma StepKeeps(b: Builder, l: Line, kind: char)
    requires IsKept(kind) && Step(b, l).Ok?
    ensures Keeps(Step(b, l).value, kind) <==> Keeps(b, kind) || Letter(l) == Some(kind)
  {
  }

  lemma FeedKeeps(b: Builder, raw: string, kind: char)
    requires IsKept(kind) && Feed(b, raw).Ok?
    ensures Keeps(Feed(b, raw).value, kind) <==> Keeps(b, kind) || KindOf(raw) == Some(kind)
  {
    RawIff(raw);
    var r := ReadLine(DropTrailing(raw, '\r'));
    if r.value.Some? {
      StepKeeps(b, r.value.value, kind);
    }
  }

  lemma HasCons(raws: seq<string>, kind: char)
    requires raws != []
    ensures Has(raws, kind) <==> KindOf(raws[0]) == Some(kind) || Has(raws[1..], kind)
  {
    if Has(raws, kind) {
      var i :| 0 <= i < |raws| && KindOf(raws[i]) == Some(kind);
      assert i > 0 ==> raws[1..][i - 1] == raws[i];
    }
    assert forall i :: 0 <= i < |raws| - 1 ==> raws[1..][i] == raws[i + 1];
  }

  /** What the builder keeps in the end is what it kept before or what some line gave. */
  lemma {:induction false} FeedAllKeeps(b: Builder, raws: seq<string>, kind: char)
    requires IsKept(kind) && FeedAll(b, raws).Ok?
    ensures Keeps(FeedAll(b, raws).value, kind) <==> Keeps(b, kind) || Has(raws, kind)
    decreases |raws|
  {
    if raws != [] {
      FeedKeeps(b, raws[0], kind);
      FeedAllKeeps(Feed(b, raws[0]).value, raws[1..], kind);
      HasCons(raws, kind);
    }
  }

  lemma AllReadCons(raws: seq<string>)
    requires raws != []
    ensures AllRead(raws) <==> LineReads(raws[0]) && AllRead(raws[1..])
  {
    assert forall i :: 0 < i < |raws| ==> raws[i] == raws[1..][i - 1];
  }

  lemma TimelyAtCons(raws: seq<string>, timed: bool, i: nat)
    requires i + 1 < |raws|
    ensures TimelyAt(raws, timed, i + 1) <==> TimelyAt(raws[1..], timed || KindOf(raws[0]) == Some('t'), i)
  {
    HasCons(raws[..i + 1], 't');
    assert raws[..i + 1][1..] == raws[1..][..i] && raws[1..][i] == raws[i + 1];
  }

  lemma TimelyCons(raws: seq<string>, timed: bool, timed': bool)
    requires raws != [] && timed' == (timed || KindOf(raws[0]) == Some('t'))
    ensures Timely(raws, timed) <==> (Refines(raws[0]) ==> timed) && Timely(raws[1..], timed')
  {
    assert TimelyAt(raws, timed, 0) <==> (Refines(raws[0]) ==> timed);
    if Timely(raws, timed) {
      forall i | 0 <= i < |raws| - 1 ensures TimelyAt(raws[1..], timed', i) {
        TimelyAtCons(raws, timed, i);
      }
    }
    if Timely(raws[1..], timed') {
      forall i | 0 < i < |raws| ensures TimelyAt(raws, timed, i) {
        TimelyAtCons(raws, timed, i - 1);
      }
    }
  }

  /** All lines are taken in exactly if each can be read and every one that refines a time has one before it. */
  lemma {:induction false} FeedAllIff(b: Builder, raws: seq<string>)
    ensures FeedAll(b, raws).Ok? <==> AllRead(raws) && Timely(raws, b.times != [])
    decreases |raws|
  {
    if raws != [] {
      FeedIff(b, raws[0]);
      AllReadCons(raws);
      TimelyCons(raws, b.times != [], b.times != [] || KindOf(raws[0]) == Some('t'));
      if Feed(b, raws[0]).Ok? {
        FeedKeeps(b, raws[0], 't');
        FeedAllIff(Feed(b, raws[0]).value, raws[1..]);
      }
    }
  }

  /** The lines of a text. */
  function LinesOf(text: string): seq<string> {
    SplitOn(text, '\n')
  }

  /** Every line can be taken in. */
  predicate Sound(raws: seq<string>) {
    AllRead(raws) && Timely(raws, false)
  }

  /**
   A text parses exactly if each of its lines can be read, every r= and z= line has a t= line before it, and there
   is a v= line, an o= line and an s= line. Where only the latter fails, the error names the first of them missing.
   */
  lemma ParseIff(text: string)
    ensures var (raws, r) := (LinesOf(text), Parse(text));
      && (r.Ok? <==> Sound(raws) && Has(raws, 'v') && Has(raws, 'o') && Has(raws, 's'))
      && (Sound(raws) && r.Err? ==>
            r.error == Missing(if !Has(raws, 'v') then "v=" else if !Has(raws, 'o') then "o=" else "s="))
  {
    var raws := LinesOf(text);
    FeedAllIff(BLANK, raws);
    if FeedAll(BLANK, raws).Ok? {
      FeedAllKeeps(BLANK, raws, 'v');
      FeedAllKeeps(BLANK, raws, 'o');
      FeedAllKeeps(BLANK, raws, 's');
    }
  }
}
