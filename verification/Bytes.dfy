/**
 Fixed-width unsigned integers and their network (big-endian) byte order,
 shared by every wire format in the project.
 */
module Bytes {

  type byte = x: int | 0 <= x < 0x100
  type u16 = x: int | 0 <= x < 0x1_0000
  type u32 = x: int | 0 <= x < 0x1_0000_0000
  type u64 = x: int | 0 <= x < 0x1_0000_0000_0000_0000

  datatype Option<+T> = None | Some(value: T)
  datatype Result<+T, +E> = Ok(value: T) | Err(error: E)

  function Be16(x: u16): (s: seq<byte>)
    ensures |s| == 2
  {
    [x / 0x100, x % 0x100]
  }

  function Be32(x: u32): (s: seq<byte>)
    ensures |s| == 4
  {
    Be16(x / 0x1_0000) + Be16(x % 0x1_0000)
  }

  function Be64(x: u64): (s: seq<byte>)
    ensures |s| == 8
  {
    Be32(x / 0x1_0000_0000) + Be32(x % 0x1_0000_0000)
  }

  /** The 16-bit number at offset `i`, as `u16::from_be_bytes` reads it. */
  function U16At(s: seq<byte>, i: nat): u16
    requires i + 2 <= |s|
  {
    s[i] as int * 0x100 + s[i + 1]
  }

  function U32At(s: seq<byte>, i: nat): u32
    requires i + 4 <= |s|
  {
    U16At(s, i) as int * 0x1_0000 + U16At(s, i + 2)
  }

  function U64At(s: seq<byte>, i: nat): u64
    requires i + 8 <= |s|
  {
    U32At(s, i) as int * 0x1_0000_0000 + U32At(s, i + 4)
  }

  /** `part` occurs in `s` at offset `i`. */
  predicate At<T(==)>(s: seq<T>, i: nat, part: seq<T>) {
    i + |part| <= |s| && s[i..i + |part|] == part
  }

  lemma AtConcat<T>(s: seq<T>, i: nat, a: seq<T>, b: seq<T>)
    ensures At(s, i, a + b) <==> At(s, i, a) && At(s, i + |a|, b)
  {
    if At(s, i, a + b) {
      assert s[i..i + |a|] == s[i..i + |a + b|][..|a|];
      assert s[i + |a|..i + |a| + |b|] == s[i..i + |a + b|][|a|..];
    }
  }

  lemma AtParts<T>(a: seq<T>, b: seq<T>, c: seq<T>)
    ensures var s := a + (b + c);
            At(s, 0, a) && At(s, |a|, b) && At(s, |a| + |b|, c) && |s| == |a| + |b| + |c|
  {
    AtConcat(a + (b + c), 0, a, b + c);
    AtConcat(a + (b + c), |a|, b, c);
  }

  lemma AtElement<T>(s: seq<T>, i: nat, part: seq<T>, k: nat)
    requires At(s, i, part) && k < |part|
    ensures s[i + k] == part[k]
  {
    assert s[i..i + |part|][k] == s[i + k];
  }

  lemma Be16At(s: seq<byte>, i: nat, x: u16)
    requires At(s, i, Be16(x))
    ensures U16At(s, i) == x
  {
    AtElement(s, i, Be16(x), 0);
    AtElement(s, i, Be16(x), 1);
  }

  lemma Be32At(s: seq<byte>, i: nat, x: u32)
    requires At(s, i, Be32(x))
    ensures U32At(s, i) == x
  {
    AtConcat(s, i, Be16(x / 0x1_0000), Be16(x % 0x1_0000));
    Be16At(s, i, x / 0x1_0000);
    Be16At(s, i + 2, x % 0x1_0000);
  }

  lemma Be64At(s: seq<byte>, i: nat, x: u64)
    requires At(s, i, Be64(x))
    ensures U64At(s, i) == x
  {
    AtConcat(s, i, Be32(x / 0x1_0000_0000), Be32(x % 0x1_0000_0000));
    Be32At(s, i, x / 0x1_0000_0000);
    Be32At(s, i + 4, x % 0x1_0000_0000);
  }

  /** What is read at an offset is what stands encoded there. */
  lemma U16Encoded(s: seq<byte>, i: nat)
    requires i + 2 <= |s|
    ensures At(s, i, Be16(U16At(s, i)))
  {
    assert Be16(U16At(s, i)) == [s[i], s[i + 1]];
  }

  lemma U32Encoded(s: seq<byte>, i: nat)
    requires i + 4 <= |s|
    ensures At(s, i, Be32(U32At(s, i)))
  {
    U16Encoded(s, i);
    U16Encoded(s, i + 2);
    AtConcat(s, i, Be16(U16At(s, i)), Be16(U16At(s, i + 2)));
  }

  /** The four bytes of a word, most significant first. */
  lemma Be32Bytes(x: u32)
    ensures Be32(x) == [x / 0x100_0000, x / 0x1_0000 % 0x100, x / 0x100 % 0x100, x % 0x100]
  {
    var (hi, lo) := (x / 0x1_0000, x % 0x1_0000);
    SplitBytes(hi, lo, hi / 0x100, hi % 0x100, lo / 0x100, lo % 0x100);
  }

  lemma SplitBytes(hi: nat, lo: nat, a: byte, b: byte, c: byte, d: byte)
    requires hi == a * 0x100 + b && lo == c * 0x100 + d
    ensures var x := hi * 0x1_0000 + lo;
      x / 0x100_0000 == a && x / 0x1_0000 % 0x100 == b && x / 0x100 % 0x100 == c && x % 0x100 == d
  {
    var x := hi * 0x1_0000 + lo;
    assert x == a * 0x100_0000 + (b * 0x1_0000 + lo) == (hi * 0x100 + c) * 0x100 + d;
    Quotient24(a, b * 0x1_0000 + lo);
    Quotient16(hi, lo);
    Quotient8(hi * 0x100 + c, d);
    Quotient8(a, b);
    Quotient8(hi, c);
  }

  lemma Quotient24(q: nat, r: nat)
    requires r < 0x100_0000
    ensures (q * 0x100_0000 + r) / 0x100_0000 == q
  {
  }

  lemma Quotient16(q: nat, r: nat)
    requires r < 0x1_0000
    ensures (q * 0x1_0000 + r) / 0x1_0000 == q
  {
  }

  lemma Quotient8(q: nat, r: nat)
    requires r < 0x100
    ensures (q * 0x100 + r) / 0x100 == q && (q * 0x100 + r) % 0x100 == r
  {
  }

  /** `n` copies of a byte, as `std::iter::repeat_n` appends them. */
  function Repeat(b: byte, n: nat): (s: seq<byte>)
    ensures |s| == n && forall i :: 0 <= i < n ==> s[i] == b
  {
    seq(n, _ => b)
  }

  /** A list of 32-bit words, one after the other. */
  function Be32s(xs: seq<u32>): (s: seq<byte>)
    ensures |s| == 4 * |xs|
  {
    if xs == [] then [] else Be32s(xs[..|xs| - 1]) + Be32(xs[|xs| - 1])
  }

  /** `n` words read from offset `i` on. */
  function U32sAt(s: seq<byte>, i: nat, n: nat): (xs: seq<u32>)
    requires i + 4 * n <= |s|
    ensures |xs| == n
  {
    if n == 0 then [] else U32sAt(s, i, n - 1) + [U32At(s, i + 4 * (n - 1))]
  }

  lemma {:induction false} Be32sAt(s: seq<byte>, i: nat, xs: seq<u32>)
    requires At(s, i, Be32s(xs))
    ensures U32sAt(s, i, |xs|) == xs
  {
    if xs != [] {
      var n := |xs| - 1;
      AtConcat(s, i, Be32s(xs[..n]), Be32(xs[n]));
      Be32sAt(s, i, xs[..n]);
      Be32At(s, i + 4 * n, xs[n]);
    }
  }

  lemma {:induction false} WordsAt(s: seq<byte>, i: nat, n: nat)
    requires i + 4 * n <= |s|
    ensures forall k :: 0 <= k < n ==> U32sAt(s, i, n)[k] == U32At(s, i + 4 * k)
  {
    if n > 0 {
      WordsAt(s, i, n - 1);
    }
  }

  lemma Be32sSnoc(xs: seq<u32>, x: u32)
    ensures Be32s(xs + [x]) == Be32s(xs) + Be32(x)
  {
    assert (xs + [x])[..|xs|] == xs;
  }

  lemma {:induction false} U32sEncoded(s: seq<byte>, i: nat, n: nat)
    requires i + 4 * n <= |s|
    ensures At(s, i, Be32s(U32sAt(s, i, n)))
  {
    if n > 0 {
      var xs, last := U32sAt(s, i, n - 1), U32At(s, i + 4 * (n - 1));
      U32sEncoded(s, i, n - 1);
      U32Encoded(s, i + 4 * (n - 1));
      AtConcat(s, i, Be32s(xs), Be32(last));
      Be32sSnoc(xs, last);
    }
  }

  lemma WordRemainder(y: nat, q: nat, r: nat)
    requires y == q * 0x1_0000_0000 + r && r < 0x1_0000_0000
    ensures y % 0x1_0000_0000 == r
  {
  }
}
