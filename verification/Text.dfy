/**
 The string operations of the Rust standard library that the text protocols rely on:
 white space, words, and unsigned integers printed and parsed in a radix.
 */
module Text {
  import opened Bytes

  /** The Unicode White_Space property. */
  predicate IsSpace(c: char) {
    var v := c as int;
    9 <= v <= 13 || v == 0x20 || v == 0x85 || v == 0xA0 || v == 0x1680 || 0x2000 <= v <= 0x200A ||
    v == 0x2028 || v == 0x2029 || v == 0x202F || v == 0x205F || v == 0x3000
  }

  /** A non-empty run of characters none of which is white space. */
  predicate IsWord(s: string) {
    s != [] && forall i :: 0 <= i < |s| ==> !IsSpace(s[i])
  }

  /** Nothing, or something that begins with white space. */
  predicate EndsWord(s: string) {
    s == [] || IsSpace(s[0])
  }

  function WordLength(s: string): (n: nat)
    ensures n <= |s| && EndsWord(s[n..])
    ensures forall i :: 0 <= i < n ==> !IsSpace(s[i])
  {
    if s == [] || IsSpace(s[0]) then 0 else 1 + WordLength(s[1..])
  }

  /** `split_whitespace`. */
  function Words(s: string): (w: seq<string>)
    ensures forall i :: 0 <= i < |w| ==> IsWord(w[i])
    decreases |s|
  {
    if s == [] then []
    else if IsSpace(s[0]) then Words(s[1..])
    else
      var n := WordLength(s);
      [s[..n]] + Words(s[n..])
  }

  function TrimStart(s: string): (t: string)
    ensures |t| <= |s| && (t == [] || !IsSpace(t[0]))
  {
    if s != [] && IsSpace(s[0]) then TrimStart(s[1..]) else s
  }

  function TrimEnd(s: string): (t: string)
    ensures t <= s && (t == [] || !IsSpace(t[|t| - 1]))
  {
    if s != [] && IsSpace(s[|s| - 1]) then TrimEnd(s[..|s| - 1]) else s
  }

  function Trim(s: string): string {
    TrimEnd(TrimStart(s))
  }

  lemma {:induction false} WordLengthExact(w: string, rest: string)
    requires forall i :: 0 <= i < |w| ==> !IsSpace(w[i])
    requires EndsWord(rest)
    ensures WordLength(w + rest) == |w|
  {
    if w == [] {
      assert w + rest == rest;
    } else {
      assert (w + rest)[1..] == w[1..] + rest;
      WordLengthExact(w[1..], rest);
    }
  }

  /** A word followed by nothing or white space is split off as it stands. */
  lemma WordsCons(w: string, rest: string)
    requires IsWord(w) && EndsWord(rest)
    ensures Words(w + rest) == [w] + Words(rest)
  {
    WordLengthExact(w, rest);
    assert (w + rest)[..|w|] == w && (w + rest)[|w|..] == rest;
  }

  /** The words separated by single spaces. */
  function Join(w: seq<string>): string {
    if w == [] then [] else if |w| == 1 then w[0] else w[0] + (" " + Join(w[1..]))
  }

  lemma {:induction false} WordsOfJoin(w: seq<string>)
    requires forall i :: 0 <= i < |w| ==> IsWord(w[i])
    ensures Words(Join(w)) == w
  {
    if |w| == 1 {
      WordsCons(w[0], []);
      assert w[0] + [] == w[0];
      assert w == [w[0]];
    } else if |w| > 1 {
      var rest := " " + Join(w[1..]);
      WordsCons(w[0], rest);
      assert rest[1..] == Join(w[1..]);
      WordsOfJoin(w[1..]);
      assert w == [w[0]] + w[1..];
    }
  }

  lemma {:induction false} JoinEnds(w: seq<string>)
    requires w != [] && forall i :: 0 <= i < |w| ==> IsWord(w[i])
    ensures var s := Join(w); s != [] && !IsSpace(s[0]) && !IsSpace(s[|s| - 1])
  {
    if |w| > 1 {
      JoinEnds(w[1..]);
    }
  }

  lemma TrimJoin(w: seq<string>)
    requires forall i :: 0 <= i < |w| ==> IsWord(w[i])
    ensures Trim(Join(w)) == Join(w)
  {
    if w != [] {
      JoinEnds(w);
    }
  }

  lemma WordsOfSpace(t: string)
    ensures Words(" " + t) == Words(t)
  {
    assert (" " + t)[1..] == t;
  }

  lemma WordSplit(a: string, n: nat)
    requires n == WordLength(a) && 0 < n
    ensures Words(a) == [a[..n]] + Words(a[n..]) && IsWord(a[..n]) && EndsWord(a[n..])
  {
  }

  lemma FirstWordApart(word: string, rest: string, b: string)
    requires IsWord(word) && EndsWord(rest) && Words(rest + (" " + b)) == Words(rest) + Words(b)
    ensures Words(word + (rest + (" " + b))) == Words(word + rest) + Words(b)
  {
    WordsCons(word, rest + (" " + b));
    WordsCons(word, rest);
    AssociateWords([word], Words(rest), Words(b));
  }

  lemma AssociateWords(x: seq<string>, y: seq<string>, z: seq<string>)
    ensures x + (y + z) == x + y + z
  {
  }

  lemma Halves(a: string, n: nat)
    requires n <= |a|
    ensures a == a[..n] + a[n..]
  {
  }

  lemma Reassociate(x: string, y: string, z: string)
    ensures x + y + z == x + (y + z)
  {
  }

  /** A space separates: the words of both sides, one after the other. */
  lemma {:induction false} WordsApart(a: string, b: string)
    ensures Words(a + (" " + b)) == Words(a) + Words(b)
    decreases |a|
  {
    if a == [] {
      assert a + (" " + b) == " " + b;
      WordsOfSpace(b);
    } else if IsSpace(a[0]) {
      assert (a + (" " + b))[1..] == a[1..] + (" " + b);
      WordsApart(a[1..], b);
    } else {
      var n := WordLength(a);
      WordsApart(a[n..], b);
      WordSplit(a, n);
      FirstWordApart(a[..n], a[n..], b);
      Reassociate(a[..n], a[n..], " " + b);
      Halves(a, n);
    }
  }

  predicate Trimmed(s: string) {
    s == [] || (!IsSpace(s[0]) && !IsSpace(s[|s| - 1]))
  }

  /** Trimming removes white space at both ends, and nothing from a string that has none there. */
  lemma TrimIff(s: string)
    ensures Trimmed(Trim(s)) && (Trim(s) == s <==> Trimmed(s))
  {
    var t := TrimStart(s);
    assert Trim(s) <= t;
  }

  // ---------- Searching and splitting ----------

  /** The place of the first c, or the end. */
  function IndexOf(s: string, c: char): (i: nat)
    ensures i <= |s| && c !in s[..i] && (i < |s| ==> s[i] == c)
  {
    if s == [] || s[0] == c then 0
    else
      var i := IndexOf(s[1..], c);
      assert s[..i + 1] == [s[0]] + s[1..][..i];
      i + 1
  }

  lemma {:induction false} IndexOfFirst(a: string, c: char, b: string)
    requires c !in a
    ensures IndexOf(a + ([c] + b), c) == |a|
  {
    if a != [] {
      assert (a + ([c] + b))[1..] == a[1..] + ([c] + b);
      IndexOfFirst(a[1..], c, b);
    }
  }

  lemma IndexOfNone(s: string, c: char)
    requires c !in s
    ensures IndexOf(s, c) == |s|
  {
  }

  /** `split` on a single character. */
  function SplitOn(s: string, c: char): (parts: seq<string>)
    ensures forall i :: 0 <= i < |parts| ==> c !in parts[i]
    decreases |s|
  {
    var i := IndexOf(s, c);
    assert s[..|s|] == s;
    if i == |s| then [s] else [s[..i]] + SplitOn(s[i + 1..], c)
  }

  lemma SplitOnCons(a: string, c: char, b: string)
    requires c !in a
    ensures SplitOn(a + ([c] + b), c) == [a] + SplitOn(b, c)
  {
    var s := a + ([c] + b);
    IndexOfFirst(a, c, b);
    assert s[..|a|] == a && s[|a| + 1..] == b;
  }

  /** `trim_end_matches` on a single character. */
  function DropTrailing(s: string, c: char): (t: string)
    ensures t <= s && (t == [] || t[|t| - 1] != c)
  {
    if s != [] && s[|s| - 1] == c then DropTrailing(s[..|s| - 1], c) else s
  }

  // ---------- Numbers ----------

  /** `char::to_digit` for a radix of at most 16. */
  function Digit(c: char): (d: nat) {
    if '0' <= c <= '9' then c as int - '0' as int
    else if 'a' <= c <= 'f' then c as int - 'a' as int + 10
    else if 'A' <= c <= 'F' then c as int - 'A' as int + 10
    else 16
  }

  function DigitChar(d: nat): (c: char)
    requires d < 16
    ensures Digit(c) == d && !IsSpace(c) && c != '+' && c != '/' && c != ':'
  {
    if d < 10 then ('0' as int + d) as char else ('a' as int + d - 10) as char
  }

  predicate AllDigits(s: string, radix: nat) {
    forall i :: 0 <= i < |s| ==> Digit(s[i]) < radix
  }

  /** The number that a string of digits denotes, most significant digit first. */
  function Value(s: string, radix: nat): nat {
    if s == [] then 0 else Value(s[..|s| - 1], radix) * radix + Digit(s[|s| - 1])
  }

  function StripPlus(s: string): string {
    if s != [] && s[0] == '+' then s[1..] else s
  }

  /** `from_str_radix` of an unsigned type whose values lie below limit. */
  function ParseUnsigned(s: string, radix: nat, limit: nat): Option<nat> {
    var digits := StripPlus(s);
    if digits != [] && AllDigits(digits, radix) && Value(digits, radix) < limit then Some(Value(digits, radix))
    else None
  }

  /** Decimal, as `{}` prints an unsigned integer. */
  function Decimal(n: nat): (s: string)
    ensures s != [] && AllDigits(s, 10) && Value(s, 10) == n && s[0] != '+' && IsWord(s)
    decreases n
  {
    if n < 10 then
      var s := [DigitChar(n)];
      assert s[..0] == [];
      s
    else
      var (head, last) := (Decimal(n / 10), DigitChar(n % 10));
      assert (head + [last])[..|head|] == head;
      head + [last]
  }

  /** n in exactly w hexadecimal digits, as `{:016x}` prints it with w == 16. */
  function Hex(n: nat, w: nat): (s: string)
    ensures |s| == w && AllDigits(s, 16) && (w > 0 ==> s[0] != '+' && IsWord(s))
  {
    if w == 0 then [] else Hex(n / 16, w - 1) + [DigitChar(n % 16)]
  }

  /** The number of values that w hexadecimal digits can tell apart. */
  function HexRange(w: nat): nat {
    if w == 0 then 1 else 16 * HexRange(w - 1)
  }

  lemma {:induction false} HexValue(n: nat, w: nat)
    requires n < HexRange(w)
    ensures Value(Hex(n, w), 16) == n
  {
    if w > 0 {
      var (head, last) := (Hex(n / 16, w - 1), DigitChar(n % 16));
      HexValue(n / 16, w - 1);
      assert (head + [last])[..|head|] == head;
    }
  }

  lemma HexRange64()
    ensures HexRange(16) == 0x1_0000_0000_0000_0000
  {
    assert HexRange(4) == 0x1_0000;
    assert HexRange(8) == 0x1_0000_0000;
    assert HexRange(12) == 0x1_0000_0000_0000;
  }

  /** Parsing undoes printing. */
  lemma ParseDecimal(n: nat, limit: nat)
    requires n < limit
    ensures ParseUnsigned(Decimal(n), 10, limit) == Some(n)
  {
  }

  lemma ParseHex64(n: u64)
    ensures ParseUnsigned(Hex(n, 16), 16, 0x1_0000_0000_0000_0000) == Some(n)
  {
    HexRange64();
    HexValue(n, 16);
  }
}
