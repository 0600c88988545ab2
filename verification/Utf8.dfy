/**
 UTF-8, as Rust strings are stored (`as_bytes`), validated (`String::from_utf8`) and
 decoded with replacement (`String::from_utf8_lossy`).
 */
module Utf8 {
  import opened Bytes

  const REPLACEMENT := '\U{FFFD}'

  function EncodeChar(c: char): (b: seq<byte>)
    ensures 1 <= |b| <= 4
  {
    var v := c as int;
    if v < 0x80 then [v]
    else if v < 0x800 then [0xC0 + v / 0x40, 0x80 + v % 0x40]
    else if v < 0x1_0000 then [0xE0 + v / 0x40 / 0x40, 0x80 + v / 0x40 % 0x40, 0x80 + v % 0x40]
    else [0xF0 + v / 0x40 / 0x40 / 0x40, 0x80 + v / 0x40 / 0x40 % 0x40, 0x80 + v / 0x40 % 0x40, 0x80 + v % 0x40]
  }

  function Encode(s: string): (b: seq<byte>)
    ensures |b| >= |s|
  {
    if s == [] then [] else EncodeChar(s[0]) + Encode(s[1..])
  }

  predicate Continuation(b: seq<byte>, i: nat) {
    i < |b| && 0x80 <= b[i] < 0xC0
  }

  /** Second byte allowed after a first byte that announces three or four. */
  predicate SecondOk(b: seq<byte>)
    requires b != []
  {
    |b| > 1 &&
    if b[0] == 0xE0 then 0xA0 <= b[1] < 0xC0
    else if b[0] == 0xED then 0x80 <= b[1] < 0xA0
    else if b[0] == 0xF0 then 0x90 <= b[1] < 0xC0
    else if b[0] == 0xF4 then 0x80 <= b[1] < 0x90
    else 0x80 <= b[1] < 0xC0
  }

  /** The payload bits of byte i, given its marker bits. */
  function Bits(b: seq<byte>, i: nat, marker: int): int
    requires i < |b|
  {
    b[i] - marker
  }

  /** One decoding step: the character at the front, or None for a malformed prefix, and the bytes it takes. */
  function Step(b: seq<byte>): (r: (Option<char>, nat))
    requires b != []
    ensures 1 <= r.1 <= |b|
  {
    if b[0] < 0x80 then (Some(b[0] as char), 1)
    else if 0xC2 <= b[0] < 0xE0 then
      if Continuation(b, 1) then (Some((Bits(b, 0, 0xC0) * 0x40 + Bits(b, 1, 0x80)) as char), 2) else (None, 1)
    else if 0xE0 <= b[0] < 0xF0 then
      if !SecondOk(b) then (None, 1)
      else if !Continuation(b, 2) then (None, 2)
      else
        var v := (Bits(b, 0, 0xE0) * 0x40 + Bits(b, 1, 0x80)) * 0x40 + Bits(b, 2, 0x80);
        assert 0x800 <= v < 0xD800 || 0xE000 <= v < 0x1_0000;
        (Some(v as char), 3)
    else if 0xF0 <= b[0] < 0xF5 then
      if !SecondOk(b) then (None, 1)
      else if !Continuation(b, 2) then (None, 2)
      else if !Continuation(b, 3) then (None, 3)
      else
        var v := ((Bits(b, 0, 0xF0) * 0x40 + Bits(b, 1, 0x80)) * 0x40 + Bits(b, 2, 0x80)) * 0x40 + Bits(b, 3, 0x80);
        assert 0x1_0000 <= v < 0x11_0000;
        (Some(v as char), 4)
    else (None, 1)
  }

  function DecodeLossy(b: seq<byte>): string {
    if b == [] then []
    else
      var (c, n) := Step(b);
      [if c.Some? then c.value else REPLACEMENT] + DecodeLossy(b[n..])
  }

  function Decode(b: seq<byte>): Option<string> {
    if b == [] then Some([])
    else
      var (c, n) := Step(b);
      if c.None? then None
      else
        var rest := Decode(b[n..]);
        if rest.None? then None else Some([c.value] + rest.value)
  }

  lemma StepUndoesEncodeShort(c: char, rest: seq<byte>)
    requires c as int < 0x800
    ensures Step(EncodeChar(c) + rest) == (Some(c), |EncodeChar(c)|)
  {
  }

  lemma StepUndoesEncodeThree(c: char, rest: seq<byte>)
    requires 0x800 <= c as int < 0x1_0000
    ensures Step(EncodeChar(c) + rest) == (Some(c), |EncodeChar(c)|)
  {
    var v, b := c as int, EncodeChar(c) + rest;
    assert v < 0xD800 || 0xE000 <= v;
    var w := v / 0x40;
    assert v == w * 0x40 + v % 0x40 && w == w / 0x40 * 0x40 + w % 0x40;
    assert b[0] == 0xE0 + w / 0x40 && b[1] == 0x80 + w % 0x40 && b[2] == 0x80 + v % 0x40;
  }

  lemma StepUndoesEncodeFour(c: char, rest: seq<byte>)
    requires 0x1_0000 <= c as int
    ensures Step(EncodeChar(c) + rest) == (Some(c), |EncodeChar(c)|)
  {
    var v, b := c as int, EncodeChar(c) + rest;
    var w := v / 0x40;
    var x := w / 0x40;
    assert v == w * 0x40 + v % 0x40 && w == x * 0x40 + w % 0x40 && x == x / 0x40 * 0x40 + x % 0x40;
    assert b[0] == 0xF0 + x / 0x40 && b[1] == 0x80 + x % 0x40 && b[2] == 0x80 + w % 0x40 && b[3] == 0x80 + v % 0x40;
  }

  lemma StepUndoesEncode(c: char, rest: seq<byte>)
    ensures Step(EncodeChar(c) + rest) == (Some(c), |EncodeChar(c)|)
  {
    if c as int < 0x800 {
      StepUndoesEncodeShort(c, rest);
    } else if c as int < 0x1_0000 {
      StepUndoesEncodeThree(c, rest);
    } else {
      StepUndoesEncodeFour(c, rest);
    }
  }

  /** Decoding, strict or lossy, undoes encoding on every string. */
  lemma {:induction false} RoundTrip(s: string)
    ensures DecodeLossy(Encode(s)) == s && Decode(Encode(s)) == Some(s)
  {
    if s != [] {
      var head, tail := EncodeChar(s[0]), Encode(s[1..]);
      StepUndoesEncode(s[0], tail);
      assert (head + tail)[|head|..] == tail;
      RoundTrip(s[1..]);
    }
  }

  lemma SixBitDigits(q: nat, r: nat)
    requires r < 0x40
    ensures (q * 0x40 + r) / 0x40 == q && (q * 0x40 + r) % 0x40 == r
  {
  }

  lemma StepEncodes(b: seq<byte>)
    requires b != [] && Step(b).0.Some?
    ensures EncodeChar(Step(b).0.value) == b[..Step(b).1]
  {
    if 0xC2 <= b[0] < 0xE0 {
      SixBitDigits(Bits(b, 0, 0xC0), Bits(b, 1, 0x80));
    } else if 0xE0 <= b[0] < 0xF0 {
      var w := Bits(b, 0, 0xE0) * 0x40 + Bits(b, 1, 0x80);
      SixBitDigits(Bits(b, 0, 0xE0), Bits(b, 1, 0x80));
      SixBitDigits(w, Bits(b, 2, 0x80));
    } else if 0xF0 <= b[0] {
      var x := Bits(b, 0, 0xF0) * 0x40 + Bits(b, 1, 0x80);
      var w := x * 0x40 + Bits(b, 2, 0x80);
      SixBitDigits(Bits(b, 0, 0xF0), Bits(b, 1, 0x80));
      SixBitDigits(x, Bits(b, 2, 0x80));
      SixBitDigits(w, Bits(b, 3, 0x80));
    }
  }

  /** Only the encoding of a string decodes strictly to it. */
  lemma {:induction false} EncodeUndoesDecode(b: seq<byte>)
    requires Decode(b).Some?
    ensures Encode(Decode(b).value) == b
    decreases |b|
  {
    if b != [] {
      var c, n, rest := FirstChar(b);
      EncodeUndoesDecode(b[n..]);
      EncodeCons(c, rest);
    }
  }

  lemma FirstChar(b: seq<byte>) returns (c: char, n: nat, rest: string)
    requires b != [] && Decode(b).Some?
    ensures 0 < n <= |b| && Decode(b[n..]) == Some(rest) && Decode(b) == Some([c] + rest)
    ensures b == EncodeChar(c) + b[n..]
  {
    StepEncodes(b);
    c, n := Step(b).0.value, Step(b).1;
    rest := Decode(b[n..]).value;
  }

  lemma EncodeCons(c: char, rest: string)
    ensures Encode([c] + rest) == EncodeChar(c) + Encode(rest)
  {
    assert ([c] + rest)[1..] == rest;
  }
}
