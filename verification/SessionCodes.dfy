/** How the server names sessions: numbered ids, and six-digit codes that are not in use. */
module SessionCodes {
  import opened Bytes
  import Text

  const WORD := 0x1_0000_0000_0000_0000

  function Zeros(k: nat): string {
    seq(k, _ => '0')
  }

  /** n in decimal, padded with zeros to at least six digits. */
  function Code(n: nat): string {
    var d := Text.Decimal(n);
    if |d| < 6 then Zeros(6 - |d|) + d else d
  }

  function Id(n: nat): string {
    "sess-" + Text.Decimal(n)
  }

  lemma {:induction false} LeadingZeros(k: nat, s: string)
    ensures Text.Value(Zeros(k) + s, 10) == Text.Value(s, 10)
    decreases |s|, k
  {
    if s == [] {
      if k > 0 {
        assert (Zeros(k) + s)[..k - 1] == Zeros(k - 1) + s;
        LeadingZeros(k - 1, s);
      }
    } else {
      var n := |s| - 1;
      assert (Zeros(k) + s)[..k + n] == Zeros(k) + s[..n];
      LeadingZeros(k, s[..n]);
    }
  }

  lemma CodeValue(n: nat)
    ensures Text.Value(Code(n), 10) == n
  {
    var d := Text.Decimal(n);
    if |d| < 6 {
      LeadingZeros(6 - |d|, d);
    }
  }

  function Pow10(k: nat): nat {
    if k == 0 then 1 else 10 * Pow10(k - 1)
  }

  lemma {:induction false} DecimalLength(n: nat, k: nat)
    requires k > 0
    ensures |Text.Decimal(n)| <= k <==> n < Pow10(k)
    decreases k
  {
    if k == 1 {
      assert Pow10(1) == 10 && (n >= 10 ==> |Text.Decimal(n / 10)| > 0);
    } else if n >= 10 {
      DecimalLength(n / 10, k - 1);
    } else {
      DecimalLength(n, k - 1);
    }
  }

  /** A code has six digits exactly if its number has at most six. */
  lemma SixDigitsIff(n: nat)
    ensures |Code(n)| == 6 <==> n < 1_000_000
    ensures Text.AllDigits(Code(n), 10)
  {
    DecimalLength(n, 6);
    assert Pow10(3) == 1000 && Pow10(6) == 1_000_000;
  }

  /** Different numbers print as different codes and different ids. */
  lemma CodeInjective(m: nat, n: nat)
    requires Code(m) == Code(n)
    ensures m == n
  {
    CodeValue(m);
    CodeValue(n);
  }

  lemma IdInjective(m: nat, n: nat)
    requires Id(m) == Id(n)
    ensures m == n
  {
    assert Id(m)[5..] == Text.Decimal(m) && Id(n)[5..] == Text.Decimal(n);
    assert Text.Value(Text.Decimal(m), 10) == m;
  }

  // ---------- The fallback walk ----------

  /** `wrapping_add(1)` on the 64-bit counter. */
  function Inc(n: u64): u64 {
    if n == WORD - 1 then 0 else n + 1
  }

  /** The k-th number after n on the counter. */
  function Later(n: u64, k: nat): u64 {
    if k == 0 then n else Inc(Later(n, k - 1))
  }

  lemma {:induction false} LaterValue(n: u64, k: nat)
    requires k <= WORD
    ensures Later(n, k) == if n + k < WORD then n + k else n + k - WORD
  {
    if k > 0 {
      LaterValue(n, k - 1);
    }
  }

  lemma LaterInjective(n: u64, i: nat, j: nat)
    requires i < j < WORD
    ensures Later(n, i) != Later(n, j)
  {
    LaterValue(n, i);
    LaterValue(n, j);
  }

  /** What the walk tries, in order, for a way of printing the counter. */
  function Tries<T>(show: nat -> T, n: u64): nat -> T {
    (k: nat) => show(Later(n, k))
  }

  /** How many names in a row, at most limit, are in use. */
  function Taken<T(==)>(codes: set<T>, name: nat -> T, limit: nat): (k: nat)
    ensures k <= limit && forall j :: 0 <= j < k ==> name(j) in codes
    ensures k < limit ==> name(k) !in codes
  {
    if limit == 0 then 0
    else
      var k := Taken(codes, name, limit - 1);
      if k == limit - 1 && name(k) in codes then limit else k
  }

  function FirstNames<T(==)>(name: nat -> T, k: nat): set<T> {
    if k == 0 then {} else FirstNames(name, k - 1) + {name(k - 1)}
  }

  predicate AllDifferent<T(==)>(name: nat -> T, k: nat) {
    forall i, j :: 0 <= i < j < k ==> name(i) != name(j)
  }

  lemma {:induction false} NotAmong<T>(name: nat -> T, k: nat, j: nat)
    requires k <= j && AllDifferent(name, j + 1)
    ensures name(j) !in FirstNames(name, k)
  {
    if k > 0 {
      NotAmong(name, k - 1, j);
    }
  }

  lemma {:induction false} CountNames<T>(codes: set<T>, name: nat -> T, k: nat)
    requires AllDifferent(name, k) && forall j :: 0 <= j < k ==> name(j) in codes
    ensures |FirstNames(name, k)| == k && FirstNames(name, k) <= codes
  {
    if k > 0 {
      CountNames(codes, name, k - 1);
      NotAmong(name, k - 1, k - 1);
    }
  }

  lemma SubsetSize<T>(a: set<T>, b: set<T>)
    requires a <= b
    ensures |a| <= |b|
  {
    assert b == a + (b - a);
  }

  /** One name more than there are names in use, all different, includes a free one. */
  lemma SomeFree<T>(codes: set<T>, name: nat -> T)
    requires AllDifferent(name, |codes| + 1)
    ensures var k := Taken(codes, name, |codes| + 1); k <= |codes| && name(k) !in codes
  {
    var k := Taken(codes, name, |codes| + 1);
    if k == |codes| + 1 {
      CountNames(codes, name, k);
      SubsetSize(FirstNames(name, k), codes);
      assert false;
    }
  }

  /** The walk has found a free code once it has tried one number more than there are codes in use. */
  lemma WalkEnds(codes: set<string>, n: u64)
    requires |codes| < WORD
    ensures var k := Taken(codes, Tries(Code, n), |codes| + 1); k <= |codes| && Tries(Code, n)(k) !in codes
  {
    forall i, j | 0 <= i < j <= |codes| ensures Tries(Code, n)(i) != Tries(Code, n)(j) {
      LaterInjective(n, i, j);
      if Code(Later(n, i)) == Code(Later(n, j)) {
        CodeInjective(Later(n, i), Later(n, j));
      }
    }
    SomeFree(codes, Tries(Code, n));
  }

  // ---------- Allocation ----------

  /** The first of the random draws whose code is free, if any. */
  function FreeDraw(codes: set<string>, draws: seq<u32>): (r: Option<u32>)
    ensures r.Some? ==> Code(r.value) !in codes
  {
    if draws == [] then None
    else if Code(draws[0]) !in codes then Some(draws[0])
    else FreeDraw(codes, draws[1..])
  }

  /** Numbers the walk passes over. */
  function Passed(codes: set<string>, next: u64): nat {
    Taken(codes, Tries(Code, next), |codes| + 1)
  }

  /** How far allocating a code advances the counter: not at all, unless every draw is in use. */
  function Advance(codes: set<string>, next: u64, draws: seq<u32>): nat {
    if FreeDraw(codes, draws).Some? then 0 else Passed(codes, next) + 1
  }

  function Alloc(codes: set<string>, next: u64, draws: seq<u32>): string {
    var draw := FreeDraw(codes, draws);
    if draw.Some? then Code(draw.value) else Tries(Code, next)(Passed(codes, next))
  }

  /** The code handed out is never in use. */
  lemma AllocFresh(codes: set<string>, next: u64, draws: seq<u32>)
    requires |codes| < WORD
    ensures Alloc(codes, next, draws) !in codes
  {
    WalkEnds(codes, next);
  }

  lemma {:induction false} FirstFree(codes: set<string>, draws: seq<u32>, i: nat)
    requires i <= |draws| && forall j :: 0 <= j < i ==> Code(draws[j]) in codes
    requires i < |draws| ==> Code(draws[i]) !in codes
    ensures FreeDraw(codes, draws) == if i < |draws| then Some(draws[i]) else None
  {
    if i > 0 {
      assert forall j :: 0 <= j < i - 1 ==> draws[1..][j] == draws[j + 1];
      FirstFree(codes, draws[1..], i - 1);
    }
  }

  /** Which code is handed out: that of the first draw that is free, or of the first free number from the counter on. */
  lemma AllocIs(codes: set<string>, next: u64, draws: seq<u32>, i: nat, k: nat)
    requires |codes| < WORD && i <= |draws| && forall j :: 0 <= j < i ==> Code(draws[j]) in codes
    requires i < |draws| ==> Code(draws[i]) !in codes
    requires Code(Later(next, k)) !in codes && forall j :: 0 <= j < k ==> Code(Later(next, j)) in codes
    ensures var n := if i < |draws| then draws[i] else Later(next, k);
      Alloc(codes, next, draws) == Code(n) && (|Alloc(codes, next, draws)| == 6 <==> n < 1_000_000)
  {
    SixDigitsIff(if i < |draws| then draws[i] else Later(next, k));
    FirstFree(codes, draws, i);
    WalkEnds(codes, next);
    var name := Tries(Code, next);
    assert forall j :: 0 <= j < k ==> name(j) in codes;
    OneFirst(codes, name, k, Passed(codes, next));
  }

  lemma OneFirst(codes: set<string>, name: nat -> string, i: nat, j: nat)
    requires name(i) !in codes && forall x :: 0 <= x < i ==> name(x) in codes
    requires name(j) !in codes && forall x :: 0 <= x < j ==> name(x) in codes
    ensures i == j
  {
  }

  method DrawCode(codes: set<string>, draws: seq<u32>) returns (code: Option<string>)
    ensures var draw := FreeDraw(codes, draws); code == if draw.Some? then Some(Code(draw.value)) else None
  {
    assert draws[0..] == draws;
    for i := 0 to |draws|
      invariant FreeDraw(codes, draws) == FreeDraw(codes, draws[i..])
    {
      var candidate := Code(draws[i]);
      if candidate !in codes {
        return Some(candidate);
      }
      assert draws[i..][1..] == draws[i + 1..];
    }
    return None;
  }

  /** The walk: steps the counter until what it prints is free. */
  method Walk<T(==)>(codes: set<T>, show: nat -> T, nextId: u64, ghost free: nat) returns (code: T, next: u64)
    requires Tries(show, nextId)(free) !in codes && forall j :: 0 <= j < free ==> Tries(show, nextId)(j) in codes
    ensures code == Tries(show, nextId)(free) && next == Later(nextId, free + 1)
  {
    ghost var k: nat := 0;
    next := nextId;
    code := show(next);
    assert Later(nextId, 0) == nextId;
    next := Inc(next);
    while code in codes
      invariant k <= free && code == Tries(show, nextId)(k) && next == Later(nextId, k + 1)
      decreases free - k
    {
      code := show(next);
      next := Inc(next);
      k := k + 1;
    }
  }

  /** The loops of the source: a bounded number of draws, then a walk that always ends. */
  method AllocSessionCode(codes: set<string>, nextId: u64, draws: seq<u32>) returns (code: string, next: u64)
    requires |codes| < WORD
    ensures code == Alloc(codes, nextId, draws) && next == Later(nextId, Advance(codes, nextId, draws))
  {
    var drawn := DrawCode(codes, draws);
    if drawn.Some? {
      return drawn.value, nextId;
    }
    WalkEnds(codes, nextId);
    code, next := Walk(codes, Code, nextId, Passed(codes, nextId));
  }
}
