/**
 Bitwise operations on unsigned integers, read as their infinite binary expansion,
 and the left shift of a 64-bit word.
 */
module Bits {
  import opened Bytes

  function Pow2(n: nat): (p: nat)
    ensures p > 0
  {
    if n == 0 then 1 else 2 * Pow2(n - 1)
  }

  predicate Bit(w: nat, d: nat) {
    if d == 0 then w % 2 == 1 else Bit(w / 2, d - 1)
  }

  function And(a: nat, b: nat): nat {
    if a == 0 || b == 0 then 0 else (a % 2) * (b % 2) + 2 * And(a / 2, b / 2)
  }

  function Or(a: nat, b: nat): nat
    decreases a + b
  {
    if a == 0 then b else if b == 0 then a
    else (if a % 2 == 1 || b % 2 == 1 then 1 else 0) + 2 * Or(a / 2, b / 2)
  }

  function Xor(a: nat, b: nat): nat
    decreases a + b
  {
    if a == 0 then b else if b == 0 then a
    else (if a % 2 != b % 2 then 1 else 0) + 2 * Xor(a / 2, b / 2)
  }

  /** `w << k` on a 64-bit word: bits pushed past the top are lost. */
  function Shl64(w: u64, k: nat): u64 {
    w * Pow2(k) % 0x1_0000_0000_0000_0000
  }

  // ---- bits of the results ----------------------------------------------

  lemma {:induction false} BitZero(d: nat)
    ensures !Bit(0, d)
  {
    if d > 0 { BitZero(d - 1); }
  }

  lemma {:induction false} BitOr(a: nat, b: nat, d: nat)
    ensures Bit(Or(a, b), d) <==> Bit(a, d) || Bit(b, d)
    decreases d
  {
    BitZero(d);
    if a != 0 && b != 0 && d > 0 { BitOr(a / 2, b / 2, d - 1); }
  }

  lemma {:induction false} BitPow2(k: nat, d: nat)
    ensures Bit(Pow2(k), d) <==> d == k
  {
    if k > 0 && d > 0 { BitPow2(k - 1, d - 1); }
    else if d > 0 { BitZero(d - 1); }
  }

  /** Masking with a single bit tests that bit. */
  lemma {:induction false} AndPow2(w: nat, d: nat)
    ensures And(w, Pow2(d)) != 0 <==> Bit(w, d)
    decreases d
  {
    if w == 0 { BitZero(d); }
    else if d > 0 { AndPow2(w / 2, d - 1); }
    else { assert And(w / 2, Pow2(d) / 2) == 0; }
  }

  lemma {:induction false} BitTimesPow2(w: nat, k: nat, d: nat)
    ensures Bit(w * Pow2(k), d) <==> k <= d && Bit(w, d - k)
    decreases k
  {
    if k > 0 {
      var x := w * Pow2(k - 1);
      assert w * Pow2(k) == 2 * x;
      if d > 0 { BitTimesPow2(w, k - 1, d - 1); }
    }
  }

  lemma ModHalf(x: nat, p: nat)
    requires p > 0
    ensures x % (2 * p) / 2 == x / 2 % p && x % (2 * p) % 2 == x % 2
  {
    var q, r := x / (2 * p), x % (2 * p);
    assert x == 2 * (p * q) + r;
    assert x / 2 == p * q + r / 2 && 0 <= r / 2 < p;
    DivModUnique(x / 2, p, q, r / 2);
  }

  lemma DivModUnique(x: nat, p: nat, q: nat, r: nat)
    requires p > 0 && x == p * q + r && r < p
    ensures x / p == q && x % p == r
  {
    MulGap(p, q, x / p);
    MulGap(p, x / p, q);
  }

  lemma MulGap(p: nat, a: int, b: int)
    ensures a < b ==> p * a + p <= p * b
  {
    if a < b {
      assert p * b == p * (a + 1) + p * (b - a - 1);
    }
  }

  lemma {:induction false} BitMod(x: nat, n: nat, d: nat)
    requires d < n
    ensures Bit(x % Pow2(n), d) <==> Bit(x, d)
    decreases n
  {
    ModHalf(x, Pow2(n - 1));
    if d > 0 { BitMod(x / 2, n - 1, d - 1); }
  }

  lemma {:induction false} Pow2Add(a: nat, b: nat)
    ensures Pow2(a + b) == Pow2(a) * Pow2(b)
  {
    if a > 0 { Pow2Add(a - 1, b); }
  }

  lemma Pow2Words()
    ensures Pow2(8) == 0x100 && Pow2(16) == 0x1_0000 && Pow2(64) == 0x1_0000_0000_0000_0000
  {
    assert Pow2(2) == 4;
    Pow2Add(2, 2);
    Pow2Add(4, 4);
    Pow2Add(8, 8);
    Pow2Add(16, 16);
    Pow2Add(32, 32);
  }

  /** A shifted word keeps the bits that stay below position 64, moved up. */
  lemma BitShl64(w: u64, k: nat, d: nat)
    requires d < 64
    ensures Bit(Shl64(w, k), d) <==> k <= d && Bit(w, d - k)
  {
    Pow2Words();
    BitMod(w * Pow2(k), 64, d);
    BitTimesPow2(w, k, d);
  }

  lemma {:induction false} OrBound(a: nat, b: nat, n: nat)
    requires a < Pow2(n) && b < Pow2(n)
    ensures Or(a, b) < Pow2(n)
    decreases n
  {
    if a != 0 && b != 0 { OrBound(a / 2, b / 2, n - 1); }
  }

  /** Or-ing a small number into a multiple of a power of two adds it. */
  lemma {:induction false} OrIsSum(a: nat, n: nat, b: nat)
    requires b < Pow2(n)
    ensures Or(a * Pow2(n), b) == a * Pow2(n) + b
  {
    if n > 0 {
      Double(a, Pow2(n - 1));
      OrIsSum(a, n - 1, b / 2);
      OrDouble(a * Pow2(n - 1), b);
    }
  }

  lemma Double(a: nat, p: nat)
    ensures a * (2 * p) == 2 * (a * p)
  {
  }

  lemma OrDouble(x: nat, b: nat)
    ensures Or(2 * x, b) == b % 2 + 2 * Or(x, b / 2)
  {
    if x == 0 || b == 0 {
      assert Or(0, b / 2) == b / 2 && Or(x, 0) == x;
    } else {
      assert 2 * x / 2 == x && 2 * x % 2 == 0;
    }
  }

  lemma {:induction false} Pow2Monotone(a: nat, b: nat)
    requires a <= b
    ensures Pow2(a) <= Pow2(b)
  {
    if a < b { Pow2Monotone(a, b - 1); }
  }

  // ---- byte-wise exclusive or -------------------------------------------

  lemma {:induction false} XorBound(a: nat, b: nat, n: nat)
    requires a < Pow2(n) && b < Pow2(n)
    ensures Xor(a, b) < Pow2(n)
    decreases n
  {
    if a != 0 && b != 0 { XorBound(a / 2, b / 2, n - 1); }
  }

  /** Bit by bit, the result is set where exactly one of the two is. */
  lemma {:induction false} BitXor(a: nat, b: nat, d: nat)
    ensures Bit(Xor(a, b), d) <==> Bit(a, d) != Bit(b, d)
    decreases d
  {
    BitZero(d);
    if a != 0 && b != 0 && d > 0 { BitXor(a / 2, b / 2, d - 1); }
  }

  /** Applying the same mask twice restores the value. */
  lemma {:induction false} XorInvolutive(a: nat, b: nat)
    ensures Xor(Xor(a, b), b) == a
    decreases a + b
  {
    if a == 0 {
      XorSelf(b);
    } else if b != 0 {
      XorInvolutive(a / 2, b / 2);
      var x := Xor(a, b);
      assert x / 2 == Xor(a / 2, b / 2);
      assert x % 2 == (if a % 2 != b % 2 then 1 else 0);
      if x == 0 { assert Xor(0, b / 2) == b / 2; }
    }
  }

  lemma {:induction false} XorSelf(b: nat)
    ensures Xor(b, b) == 0
  {
    if b != 0 { XorSelf(b / 2); }
  }

  lemma {:induction false} XorCommutes(a: nat, b: nat)
    ensures Xor(a, b) == Xor(b, a)
    decreases a + b
  {
    if a != 0 && b != 0 { XorCommutes(a / 2, b / 2); }
  }

  function XorByte(a: byte, b: byte): (c: byte)
    ensures Xor(c, b) == a
  {
    Pow2Words();
    XorBound(a, b, 8);
    XorInvolutive(a, b);
    Xor(a, b)
  }

  lemma BitXorByte(a: byte, b: byte, d: nat)
    ensures Bit(XorByte(a, b), d) <==> Bit(a, d) != Bit(b, d)
  {
    BitXor(a, b, d);
  }

  /** Element-wise exclusive or of two byte strings of the same length. */
  function XorBytes(a: seq<byte>, b: seq<byte>): (c: seq<byte>)
    requires |a| == |b|
    ensures |c| == |a|
  {
    seq(|a|, i requires 0 <= i < |a| => XorByte(a[i], b[i]))
  }

  lemma XorBytesInvolutive(a: seq<byte>, b: seq<byte>)
    requires |a| == |b|
    ensures XorBytes(XorBytes(a, b), b) == a
  {
    forall i | 0 <= i < |a| ensures XorBytes(XorBytes(a, b), b)[i] == a[i] {
      XorInvolutive(a[i], b[i]);
    }
  }

  /** Different masks give different results. */
  lemma XorBytesInjective(a: seq<byte>, b: seq<byte>, c: seq<byte>)
    requires |a| == |b| == |c| && XorBytes(a, b) == XorBytes(a, c)
    ensures b == c
  {
    forall i | 0 <= i < |a| ensures b[i] == c[i] {
      assert XorBytes(a, b)[i] == XorBytes(a, c)[i];
      XorCommutes(a[i], b[i]);
      XorCommutes(a[i], c[i]);
      XorInvolutive(b[i], a[i]);
      XorInvolutive(c[i], a[i]);
    }
  }
}
