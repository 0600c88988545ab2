/**
 The session messages of src/core/protocol.rs and their text form, with the first-byte routing
 that src/core/session.rs applies to every datagram.
 */
module AppProtocol {
  import Bits
  import opened Bytes
  import Text
  import Utf8

  datatype AppMsg =
    | Syn(token: u64)
    | SynAck(your: u64, mine: u64)
    | Ack(your: u64)
    | Fin(token: u64)
    | FinAck(your: u64, mine: u64)
    | FinAck2(your: u64)

  function Format(kind: string, args: seq<u64>): string {
    Text.Join([kind] + seq(|args|, i requires 0 <= i < |args| => Text.Hex(args[i], 16)))
  }

  function Kind(m: AppMsg): string {
    match m
    case Syn(_) => "SYN"
    case SynAck(_, _) => "SYN-ACK"
    case Ack(_) => "ACK"
    case Fin(_) => "FIN"
    case FinAck(_, _) => "FIN-ACK"
    case FinAck2(_) => "FIN-ACK2"
  }

  function Args(m: AppMsg): seq<u64> {
    match m
    case Syn(token) => [token]
    case SynAck(your, mine) => [your, mine]
    case Ack(your) => [your]
    case Fin(token) => [token]
    case FinAck(your, mine) => [your, mine]
    case FinAck2(your) => [your]
  }

  function Encode(m: AppMsg): seq<byte> {
    Utf8.Encode(Format(Kind(m), Args(m)))
  }

  /** The i-th word read as a hexadecimal u64. */
  function HexArg(w: seq<string>, i: nat): Option<u64> {
    if i < |w| then
      var r := Text.ParseUnsigned(w[i], 16, 0x1_0000_0000_0000_0000);
      if r.Some? then Some(r.value) else None
    else None
  }

  function ParseWords(w: seq<string>): Option<AppMsg> {
    if w == [] then None
    else
      var (first, second) := (HexArg(w, 1), HexArg(w, 2));
      if first.None? then None
      else if w[0] == "SYN" then Some(Syn(first.value))
      else if w[0] == "ACK" then Some(Ack(first.value))
      else if w[0] == "FIN" then Some(Fin(first.value))
      else if w[0] == "FIN-ACK2" then Some(FinAck2(first.value))
      else if second.None? then None
      else if w[0] == "SYN-ACK" then Some(SynAck(first.value, second.value))
      else if w[0] == "FIN-ACK" then Some(FinAck(first.value, second.value))
      else None
  }

  function ParseAppMsg(b: seq<byte>): Option<AppMsg> {
    ParseWords(Text.Words(Text.Trim(Utf8.DecodeLossy(b))))
  }

  /** What the receiver thread takes a datagram for, by its first byte. */
  datatype Route = Nothing | Dtls | Media | App(msg: Option<AppMsg>)

  function Classify(b: seq<byte>): Route {
    if b == [] then Nothing
    else if 20 <= b[0] <= 63 then Dtls
    else if 128 <= b[0] <= 191 then Media
    else App(ParseAppMsg(b))
  }

  lemma ParseFormat(kind: string, args: seq<u64>, w: seq<string>)
    requires Text.IsWord(kind)
    requires |w| == |args| + 1 && w[0] == kind
    requires forall i :: 0 <= i < |args| ==> w[i + 1] == Text.Hex(args[i], 16)
    ensures Text.Words(Text.Trim(Utf8.DecodeLossy(Utf8.Encode(Format(kind, args))))) == w
    ensures forall i :: 0 <= i < |args| ==> HexArg(w, i + 1) == Some(args[i])
  {
    Utf8.RoundTrip(Format(kind, args));
    assert w == [kind] + seq(|args|, i requires 0 <= i < |args| => Text.Hex(args[i], 16));
    Text.TrimJoin(w);
    Text.WordsOfJoin(w);
    forall i | 0 <= i < |args| ensures HexArg(w, i + 1) == Some(args[i]) {
      Text.ParseHex64(args[i]);
    }
  }

  lemma KindWord(m: AppMsg)
    ensures var k := Kind(m); Text.IsWord(k) && k[0] as int in {65, 70, 83}
  {
  }

  lemma ParseWordsOf(m: AppMsg, w: seq<string>)
    requires |w| == |Args(m)| + 1 && w[0] == Kind(m)
    requires forall i :: 0 <= i < |Args(m)| ==> HexArg(w, i + 1) == Some(Args(m)[i])
    ensures ParseWords(w) == Some(m)
  {
    assert HexArg(w, 0 + 1) == Some(Args(m)[0]);
    assert |Args(m)| == 2 ==> HexArg(w, 1 + 1) == Some(Args(m)[1]);
  }

  /** The parser reads back every message the encoders produce. */
  lemma ParseUndoesEncode(m: AppMsg)
    ensures ParseAppMsg(Encode(m)) == Some(m)
  {
    KindWord(m);
    var args := Args(m);
    var w := [Kind(m)] + seq(|args|, i requires 0 <= i < |args| => Text.Hex(args[i], 16));
    ParseFormat(Kind(m), args, w);
    ParseWordsOf(m, w);
  }

  lemma FirstByte(kind: string, args: seq<u64>)
    requires kind != [] && kind[0] as int < 0x80 && args != []
    ensures Utf8.Encode(Format(kind, args)) != [] && Utf8.Encode(Format(kind, args))[0] == kind[0] as int
  {
    var w := [kind] + seq(|args|, i requires 0 <= i < |args| => Text.Hex(args[i], 16));
    assert Format(kind, args) == w[0] + (" " + Text.Join(w[1..]));
  }

  /** A session message on the wire is never mistaken for DTLS or media, and arrives as itself. */
  lemma Delivered(m: AppMsg)
    ensures Classify(Encode(m)) == App(Some(m))
  {
    ParseUndoesEncode(m);
    StartsWithLetter(m);
    Routed(Encode(m), m);
  }

  lemma StartsWithLetter(m: AppMsg)
    ensures Encode(m) != [] && 'A' as int <= Encode(m)[0] <= 'Z' as int
  {
    KindWord(m);
    FirstByte(Kind(m), Args(m));
  }

  lemma Routed(data: seq<byte>, m: AppMsg)
    requires data != [] && 'A' as int <= data[0] <= 'Z' as int && ParseAppMsg(data) == Some(m)
    ensures Classify(data) == App(Some(m))
  {
  }

  // ---------- Spelling ----------

  function OneToken(kind: string, a: u64): string {
    kind + " " + Text.Hex(a, 16)
  }

  function TwoTokens(kind: string, a: u64, b: u64): string {
    kind + " " + Text.Hex(a, 16) + " " + Text.Hex(b, 16)
  }

  /** The text of a message. */
  function Spelling(m: AppMsg): string {
    match m
    case Syn(token) => OneToken("SYN", token)
    case SynAck(your, mine) => TwoTokens("SYN-ACK", your, mine)
    case Ack(your) => OneToken("ACK", your)
    case Fin(token) => OneToken("FIN", token)
    case FinAck(your, mine) => TwoTokens("FIN-ACK", your, mine)
    case FinAck2(your) => OneToken("FIN-ACK2", your)
  }

  /** The bytes are the characters of the text. */
  predicate Spells(b: seq<byte>, text: string) {
    |b| == |text| && forall i :: 0 <= i < |b| ==> b[i] == text[i] as int
  }

  predicate Ascii(text: string) {
    forall i :: 0 <= i < |text| ==> text[i] as int < 0x80
  }

  lemma {:induction false} AsciiSpells(text: string)
    requires Ascii(text)
    ensures Spells(Utf8.Encode(text), text)
  {
    if text != [] {
      AsciiSpells(text[1..]);
    }
  }

  const DIGITS := "0123456789abcdef"

  lemma DigitIs(d: nat)
    requires d < 16
    ensures Text.DigitChar(d) == DIGITS[d] && Text.DigitChar(d) as int < 0x80
  {
  }

  lemma TwoQuotients(n: nat, p: nat)
    requires p > 0
    ensures n / 16 / p == n / (16 * p)
  {
    var (a, q) := (n / 16, n / 16 / p);
    assert n == 16 * a + n % 16 && a == p * q + a % p;
    Associates(p, q);
    Bits.DivModUnique(n, 16 * p, q, 16 * (a % p) + n % 16);
  }

  lemma Associates(p: nat, q: nat)
    ensures 16 * (p * q) == 16 * p * q
  {
  }

  lemma {:induction false} RangePositive(k: nat)
    ensures Text.HexRange(k) > 0
  {
    if k > 0 {
      RangePositive(k - 1);
    }
  }

  /** A token is printed in w lower-case hexadecimal digits; this is the one that stands for 16^k. */
  lemma {:induction false} HexDigit(n: nat, w: nat, k: nat)
    requires k < w
    ensures Text.HexRange(k) > 0 && Text.Hex(n, w)[w - 1 - k] == DIGITS[n / Text.HexRange(k) % 16]
  {
    DigitIs(n % 16);
    RangePositive(k);
    if k > 0 {
      HexDigit(n / 16, w - 1, k - 1);
      TwoQuotients(n, Text.HexRange(k - 1));
    }
  }

  lemma {:induction false} HexAscii(n: nat, w: nat)
    ensures Ascii(Text.Hex(n, w))
  {
    if w > 0 {
      HexAscii(n / 16, w - 1);
      DigitIs(n % 16);
    }
  }

  lemma Format1(kind: string, a: u64)
    ensures Format(kind, [a]) == OneToken(kind, a)
  {
    var args: seq<u64> := [a];
    var w := seq(|args|, i requires 0 <= i < |args| => Text.Hex(args[i], 16));
    var x := Text.Hex(a, 16);
    assert w == [x] && ([kind] + w)[1..] == [x];
    assert Text.Join([x]) == x && kind + (" " + x) == kind + " " + x;
  }

  lemma Format2(kind: string, a: u64, b: u64)
    ensures Format(kind, [a, b]) == TwoTokens(kind, a, b)
  {
    var args: seq<u64> := [a, b];
    var (x, y) := (Text.Hex(a, 16), Text.Hex(b, 16));
    var w := seq(|args|, i requires 0 <= i < |args| => Text.Hex(args[i], 16));
    assert w == [x, y] && ([kind] + w)[1..] == [x, y] && [x, y][1..] == [y];
    assert Text.Join([x, y]) == x + (" " + y);
    assert kind + (" " + (x + (" " + y))) == kind + " " + x + " " + y;
  }

  lemma FormatSpelled(m: AppMsg)
    ensures Format(Kind(m), Args(m)) == Spelling(m)
  {
    match m
    case Syn(token) => Format1("SYN", token);
    case SynAck(your, mine) => Format2("SYN-ACK", your, mine);
    case Ack(your) => Format1("ACK", your);
    case Fin(token) => Format1("FIN", token);
    case FinAck(your, mine) => Format2("FIN-ACK", your, mine);
    case FinAck2(your) => Format1("FIN-ACK2", your);
  }

  /** Every message goes out as its text, character by character. */
  lemma EncodedSpelled(m: AppMsg)
    ensures Spells(Encode(m), Spelling(m))
  {
    FormatSpelled(m);
    SpellingAscii(m);
    AsciiSpells(Spelling(m));
  }

  lemma TokensAscii(kind: string, a: u64, b: u64)
    requires Ascii(kind)
    ensures Ascii(OneToken(kind, a)) && Ascii(TwoTokens(kind, a, b))
  {
    HexAscii(a, 16);
    HexAscii(b, 16);
  }

  lemma SpellingAscii(m: AppMsg)
    ensures Ascii(Spelling(m))
  {
    match m
    case Syn(token) => TokensAscii("SYN", token, 0);
    case SynAck(your, mine) => TokensAscii("SYN-ACK", your, mine);
    case Ack(your) => TokensAscii("ACK", your, 0);
    case Fin(token) => TokensAscii("FIN", token, 0);
    case FinAck(your, mine) => TokensAscii("FIN-ACK", your, mine);
    case FinAck2(your) => TokensAscii("FIN-ACK2", your, 0);
  }
}
