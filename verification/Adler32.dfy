/** Adler-32 (section 8.2 of RFC 1950): two sums modulo BASE, kept in the halves of
    a 32-bit word. */
module Adler32 {
  import opened Bits

  /** The largest prime smaller than 65536. */
  const BASE: nat := 65521
  const NMAX: nat := 5552
  const WORD: nat := 0x1_0000_0000

  datatype Sums = Sums(a: nat, b: nat)

  /** Both sums are reduced. */
  predicate Reduced(s: Sums) {
    s.a < BASE && s.b < BASE
  }

  /** Both sums fit sixteen bits, as the halves of any word do. */
  predicate Small(s: Sums) {
    s.a < 65536 && s.b < 65536
  }

  function Mod(s: Sums): Sums {
    Sums(s.a % BASE, s.b % BASE)
  }

  /** The definition: each byte is added to the first sum, and that to the second. */
  function AdlerByte(s: Sums, x: Byte): (r: Sums)
    ensures Reduced(r)
  {
    var a := (s.a + x) % BASE;
    Sums(a, (s.b + a) % BASE)
  }

  function Adler(s: Sums, data: seq<Byte>): Sums {
    if data == [] then s else AdlerByte(Adler(s, data[..|data| - 1]), data[|data| - 1])
  }

  lemma {:induction false} AdlerAppend(s: Sums, x: seq<Byte>, y: seq<Byte>)
    ensures Adler(s, x + y) == Adler(Adler(s, x), y)
    decreases |y|
  {
    hide AdlerByte;
    if y == [] {
      assert x + y == x;
    } else {
      var n := |y| - 1;
      assert (x + y)[..|x + y| - 1] == x + y[..n];
      AdlerAppend(s, x, y[..n]);
    }
  }

  lemma AdlerReduced(s: Sums, data: seq<Byte>)
    requires Reduced(s)
    ensures Reduced(Adler(s, data))
  {
  }

  // ---------- sums without reduction ----------

  function SumA(a: nat, data: seq<Byte>): nat {
    if data == [] then a else SumA(a, data[..|data| - 1]) + data[|data| - 1]
  }

  function SumB(a: nat, b: nat, data: seq<Byte>): nat {
    if data == [] then b else SumB(a, b, data[..|data| - 1]) + SumA(a, data)
  }

  /** Every byte counts as often as there are bytes from it on. */
  function Weighted(data: seq<Byte>): nat {
    if data == [] then 0 else |data| * data[0] + Weighted(data[1..])
  }

  function Plain(data: seq<Byte>): nat {
    if data == [] then 0 else data[0] + Plain(data[1..])
  }

  /** The first byte first. */
  lemma {:induction false} SumsFirst(a: nat, b: nat, data: seq<Byte>)
    requires data != []
    ensures SumA(a, data) == SumA(a + data[0], data[1..])
    ensures SumB(a, b, data) == SumB(a + data[0], b + a + data[0], data[1..])
    decreases |data|
  {
    var n := |data| - 1;
    if n > 0 {
      SumsFirst(a, b, data[..n]);
      assert data[..n][1..] == data[1..][..n - 1];
      assert data[1..][n - 1] == data[n];
    } else {
      assert data[1..] == [] && data[..0] == [];
    }
  }

  /** The sums of all bytes, in closed form: from 1 and 0 they are one more than the sum of the
      bytes, and the number of bytes plus the weighted sum. */
  lemma {:induction false} SumsAre(a: nat, b: nat, data: seq<Byte>)
    ensures SumA(a, data) == a + Plain(data)
    ensures SumB(a, b, data) == b + |data| * a + Weighted(data)
    decreases |data|
  {
    hide SumA, SumB;
    if data == [] {
      NoMore(a, b);
    } else {
      var x, n := data[0], |data|;
      SumsFirst(a, b, data);
      SumsAre(a + x, b + a + x, data[1..]);
      assert (n - 1) * (a + x) == n * a + n * x - a - x;
    }
  }

  lemma NoMore(a: nat, b: nat)
    ensures SumA(a, []) == a && SumB(a, b, []) == b
  {
  }

  lemma ModAdd(x: nat, y: nat)
    ensures (x % BASE + y) % BASE == (x + y) % BASE
    ensures (x + y % BASE) % BASE == (x + y) % BASE
  {
    ModMultiple(x % BASE + y, x / BASE);
    ModMultiple(x + y % BASE, y / BASE);
  }

  lemma {:induction false} ModMultiple(z: nat, q: nat)
    ensures (z + BASE * q) % BASE == z % BASE
  {
    if q > 0 {
      ModMultiple(z, q - 1);
    }
  }

  /** Reducing once at the end is the same as reducing after every byte. */
  lemma {:induction false} ReduceAtEnd(s: Sums, data: seq<Byte>)
    ensures Adler(Mod(s), data) == Sums(SumA(s.a, data) % BASE, SumB(s.a, s.b, data) % BASE)
    decreases |data|
  {
    if data != [] {
      var init, x := data[..|data| - 1], data[|data| - 1];
      ReduceAtEnd(s, init);
      ModAdd(SumA(s.a, init), x);
      ModAdd(SumB(s.a, s.b, init), SumA(s.a, data) % BASE);
      ModAdd(SumB(s.a, s.b, init), SumA(s.a, data));
    }
  }

  lemma {:induction false} SumBounds(a: nat, b: nat, data: seq<Byte>)
    ensures SumA(a, data) <= a + 255 * |data|
    ensures 2 * SumB(a, b, data) <= 2 * b + 2 * |data| * a + 255 * |data| * (|data| + 1)
    decreases |data|
  {
    if data != [] {
      SumBounds(a, b, data[..|data| - 1]);
      Triangle(a, |data| - 1);
    }
  }

  lemma Triangle(a: nat, n: nat)
    ensures 2 * n * a + 255 * n * (n + 1) + 2 * (a + 255 * (n + 1)) == 2 * (n + 1) * a + 255 * (n + 1) * (n + 2)
  {
  }

  /** Twice the largest second sum after n bytes of 255, from sums of c. */
  function Worst(c: nat, n: nat): nat {
    (n + 1) * (2 * c + 255 * n)
  }

  lemma {:induction false} WorstMonotone(c: nat, m: nat, n: nat)
    requires m <= n
    ensures Worst(c, m) <= Worst(c, n)
    decreases n
  {
    if m < n {
      WorstMonotone(c, m, n - 1);
      assert Worst(c, n) == Worst(c, n - 1) + 2 * c + 255 * 2 * n;
    }
  }

  /** NMAX is the largest number of bytes whose sums always fit 32 bits, from reduced sums
      and also from any sums of sixteen bits. */
  lemma NmaxIsLargest(c: nat, n: nat)
    requires BASE - 1 <= c < 65536
    ensures Worst(c, n) <= 2 * (WORD - 1) <==> n <= NMAX
  {
    if n <= NMAX {
      WorstMonotone(c, n, NMAX);
      assert Worst(c, NMAX) <= 2 * (WORD - 1);
    } else {
      WorstMonotone(c, NMAX + 1, n);
      assert Worst(c, NMAX + 1) > 2 * (WORD - 1);
    }
  }

  lemma WorstBounds(a: nat, b: nat, c: nat, n: nat)
    requires a <= c && b <= c
    ensures 2 * b + 2 * n * a + 255 * n * (n + 1) <= Worst(c, n)
  {
    assert n * a <= n * c;
    assert Worst(c, n) == 2 * (n * c) + 2 * c + 255 * (n * (n + 1));
  }

  /** From any sums of sixteen bits, at most NMAX bytes never overflow. */
  lemma NoOverflow(s: Sums, data: seq<Byte>)
    requires Small(s) && |data| <= NMAX
    ensures SumA(s.a, data) < WORD && SumB(s.a, s.b, data) < WORD
  {
    hide SumA, SumB, Worst;
    SumBounds(s.a, s.b, data);
    WorstBounds(s.a, s.b, 65535, |data|);
    NmaxIsLargest(65535, |data|);
  }

  // ---------- the reductions by subtraction ----------

  lemma SubtractMultiple(a: nat, k: nat)
    requires k * BASE <= a
    ensures (a - k * BASE) % BASE == a % BASE
  {
  }

  lemma {:induction false} ShlIsMultiple(n: nat)
    ensures Shl(BASE, n) == Pow2(n) * BASE
  {
    if n > 0 {
      ShlIsMultiple(n - 1);
    }
  }

  /** MOD and MOD4 where there is no division: subtracts BASE << k, ..., BASE << 0. */
  method ModBySubtraction(a0: nat, k: nat) returns (a: nat)
    requires a0 < Shl(BASE, k + 1)
    ensures a == a0 % BASE
  {
    hide Shl, Pow2;
    a := a0;
    var i := k + 1;
    while i > 0
      invariant 0 <= i <= k + 1 && a < Shl(BASE, i) && a % BASE == a0 % BASE
    {
      i := i - 1;
      ShlStep(BASE, i);
      if a >= Shl(BASE, i) {
        ShlIsMultiple(i);
        SubtractMultiple(a, Pow2(i));
        a := a - Shl(BASE, i);
      }
    }
    ShlNone(BASE);
  }

  lemma ShlStep(x: nat, i: nat)
    ensures Shl(x, i + 1) == 2 * Shl(x, i)
  {
  }

  // ---------- the checksum ----------

  /** Thirty-two-bit arithmetic. */
  function U32(x: nat): nat {
    x % WORD
  }

  function Halves(adler: nat): Sums {
    Sums(adler % 65536, (adler / 65536) % 65536)
  }

  function Word(s: Sums): nat {
    s.a + 65536 * s.b
  }

  lemma WordHalves(s: Sums)
    requires s.a < 65536 && s.b < 65536
    ensures Halves(Word(s)) == s
  {
  }

  /** Adds n bytes from i on, in 32-bit arithmetic that does not overflow. */
  method AddBytes(data: seq<Byte>, start: nat, i: nat, n: nat, ghost s: Sums, a0: nat, b0: nat) returns (a: nat, b: nat)
    requires start <= i && i + n <= |data| && Small(s) && i + n - start <= NMAX
    requires a0 == SumA(s.a, data[start..i]) && b0 == SumB(s.a, s.b, data[start..i])
    ensures a == SumA(s.a, data[start..i + n]) && b == SumB(s.a, s.b, data[start..i + n])
  {
    hide SumA, SumB;
    a, b := a0, b0;
    for j := 0 to n
      invariant a == SumA(s.a, data[start..i + j]) && b == SumB(s.a, s.b, data[start..i + j])
    {
      AddStep(s, data, start, i + j);
      NoOverflow(s, data[start..i + j + 1]);
      a := U32(a + data[i + j]);
      b := U32(b + a);
    }
  }

  lemma AddStep(s: Sums, data: seq<Byte>, start: nat, i: nat)
    requires start <= i < |data|
    ensures SumA(s.a, data[start..i + 1]) == SumA(s.a, data[start..i]) + data[i]
    ensures SumB(s.a, s.b, data[start..i + 1]) == SumB(s.a, s.b, data[start..i]) + SumA(s.a, data[start..i + 1])
  {
    assert data[start..i + 1][..i - start] == data[start..i];
  }

  lemma NoSums(s: Sums, data: seq<Byte>, i: nat)
    requires i <= |data|
    ensures SumA(s.a, data[i..i]) == s.a && SumB(s.a, s.b, data[i..i]) == s.b
  {
  }

  /** The reduced sums after the bytes start..i are those of the definition. */
  lemma Reduce(s0: Sums, data: seq<Byte>, start: nat, i: nat, s: Sums)
    requires start <= i <= |data| && Mod(s) == Adler(Mod(s0), data[..start])
    ensures Adler(Mod(s0), data[..i]) == Sums(SumA(s.a, data[start..i]) % BASE, SumB(s.a, s.b, data[start..i]) % BASE)
  {
    hide Adler, SumA, SumB;
    ReduceAtEnd(s, data[start..i]);
    AdlerAppend(Mod(s0), data[..start], data[start..i]);
    assert data[..start] + data[start..i] == data[..i];
  }

  /** One byte: each sum is reduced by at most one subtraction. */
  method OneByte(s: Sums, x: Byte) returns (r: Sums)
    requires Small(s)
    ensures r == Sums((s.a + x) % BASE, if s.b + (s.a + x) % BASE < BASE then s.b + (s.a + x) % BASE else s.b + (s.a + x) % BASE - BASE)
  {
    var a := s.a + x;
    if a >= BASE {
      a := a - BASE;
    }
    var b := s.b + a;
    if b >= BASE {
      b := b - BASE;
    }
    return Sums(a, b);
  }

  /** Fewer than 16 bytes. */
  method ShortBytes(s: Sums, data: seq<Byte>) returns (r: Sums)
    requires Small(s) && |data| < 16
    ensures r == Adler(Mod(s), data)
  {
    hide SumA, SumB, Adler, Shl;
    NoSums(s, data, 0);
    var a, b := AddBytes(data, 0, 0, |data|, s, s.a, s.b);
    assert data[0..|data|] == data;
    SumBounds(s.a, s.b, data);
    ReduceAtEnd(s, data);
    if a >= BASE {
      a := a - BASE;
    }
    ShortFits(s.a, s.b, |data|, b);
    b := ModBySubtraction(b, 4);
    return Sums(a, b);
  }

  lemma ShortFits(a: nat, b: nat, n: nat, sum: nat)
    requires a < 65536 && b < 65536 && n < 16 && 2 * sum <= 2 * b + 2 * n * a + 255 * n * (n + 1)
    ensures sum < Shl(BASE, 5)
  {
    assert n * a <= 15 * a;
    assert n * (n + 1) <= 15 * 16;
    assert Shl(BASE, 1) == 2 * BASE && Shl(BASE, 2) == 4 * BASE && Shl(BASE, 3) == 8 * BASE;
  }

  /** Blocks of NMAX bytes with one reduction each, and the rest. */
  method LongBytes(s0: Sums, data: seq<Byte>) returns (r: Sums)
    requires Small(s0) && |data| > 0
    ensures r == Adler(Mod(s0), data)
  {
    hide SumA, SumB, Adler;
    var s := s0;
    var i := 0;
    Nothing(s0, data);
    while |data| - i >= NMAX
      invariant 0 <= i <= |data| && Small(s) && Mod(s) == Adler(Mod(s0), data[..i]) && (i > 0 ==> Reduced(s))
      decreases |data| - i
    {
      var start := i;
      NoSums(s, data, start);
      var a, b := s.a, s.b;
      var n := NMAX / 16;
      while n > 0
        invariant 0 <= n <= NMAX / 16 && i == start + NMAX - 16 * n && start + NMAX <= |data|
        invariant a == SumA(s.a, data[start..i]) && b == SumB(s.a, s.b, data[start..i])
      {
        a, b := AddBytes(data, start, i, 16, s, a, b);
        i := i + 16;
        n := n - 1;
      }
      Reduce(s0, data, start, i, s);
      s := Sums(a % BASE, b % BASE);
    }
    if i < |data| {
      var start := i;
      NoSums(s, data, start);
      var a, b := s.a, s.b;
      while |data| - i >= 16
        invariant start <= i <= |data|
        invariant a == SumA(s.a, data[start..i]) && b == SumB(s.a, s.b, data[start..i])
        decreases |data| - i
      {
        a, b := AddBytes(data, start, i, 16, s, a, b);
        i := i + 16;
      }
      a, b := AddBytes(data, start, i, |data| - i, s, a, b);
      Reduce(s0, data, start, |data|, s);
      s := Sums(a % BASE, b % BASE);
    }
    assert data[..|data|] == data;
    return s;
  }

  lemma Nothing(s: Sums, data: seq<Byte>)
    ensures Adler(Mod(s), data[..0]) == Mod(s)
  {
  }

  /** One byte is added to a second sum so large that one subtraction does not reduce it. */
  predicate NotReducedBy(s: Sums, data: seq<Byte>) {
    |data| == 1 && s.b + (s.a + data[0]) % BASE >= 2 * BASE
  }

  /** Updates a running checksum, whatever its halves are. The result is that of the
      definition exactly unless a single byte leaves the second sum unreduced. */
  method Checksum(adler: nat, buf: Buffer) returns (r: nat)
    ensures buf.Null? ==> r == 1
    ensures buf.Bytes? ==>
              var s := Halves(adler); var u := Adler(Mod(s), buf.data);
              && (r == Word(u) <==> !NotReducedBy(s, buf.data))
              && (NotReducedBy(s, buf.data) ==> r == Word(Sums(u.a, u.b + BASE)))
  {
    hide Adler, Halves, Mod, Word, NotReducedBy, Small;
    if buf.Null? {
      return 1;
    }
    var s := Halves(adler);
    HalvesSmall(adler);
    SeveralReduced(s, buf.data);
    if |buf.data| == 1 {
      var t := OneByte(s, buf.data[0]);
      OneIsRight(s, buf.data, t);
      s := t;
    } else if |buf.data| < 16 {
      s := ShortBytes(s, buf.data);
    } else {
      s := LongBytes(s, buf.data);
    }
    return Word(s);
  }

  lemma SeveralReduced(s: Sums, data: seq<Byte>)
    ensures |data| != 1 ==> !NotReducedBy(s, data)
  {
  }

  /** A single byte is added right unless it leaves the second sum unreduced. */
  lemma OneIsRight(s: Sums, data: seq<Byte>, r: Sums)
    requires |data| == 1 && Small(s)
    requires var a := (s.a + data[0]) % BASE; r == Sums(a, if s.b + a < BASE then s.b + a else s.b + a - BASE)
    ensures var u := Adler(Mod(s), data);
            && (Word(r) == Word(u) <==> !NotReducedBy(s, data))
            && (NotReducedBy(s, data) ==> r == Sums(u.a, u.b + BASE))
  {
    hide Adler, Mod;
    OneIsAll(s, data);
    ReduceOnce(s.b + (s.a + data[0]) % BASE);
  }

  lemma ReduceOnce(x: nat)
    requires x < 3 * BASE
    ensures x < BASE ==> x % BASE == x
    ensures BASE <= x < 2 * BASE ==> x % BASE == x - BASE
    ensures 2 * BASE <= x ==> x % BASE == x - 2 * BASE
  {
  }

  lemma HalvesSmall(adler: nat)
    ensures Small(Halves(adler))
  {
  }

  lemma OneIsAll(s: Sums, data: seq<Byte>)
    requires |data| == 1 && Small(s)
    ensures Adler(Mod(s), data) == Sums((s.a + data[0]) % BASE, (s.b + (s.a + data[0]) % BASE) % BASE)
  {
    assert data[..0] == [];
    ModAdd(s.a, data[0]);
    ModAdd(s.b, (s.a + data[0]) % BASE);
  }

  /** A running sum to which one byte is added wrongly. */
  lemma UnreducedByte()
    ensures NotReducedBy(Sums(BASE - 1, 65535), [0])
  {
  }

  /** A checksum whose halves are at most BASE, as combining returns them, is continued
      as its reduced form is. */
  lemma ContinuesCombined(s: Sums, data: seq<Byte>)
    requires s.a <= BASE && s.b <= BASE
    ensures !NotReducedBy(s, data)
  {
  }

  // ---------- combining ----------

  /** The checksum of no bytes. */
  const START: Sums := Sums(1, 0)

  lemma {:induction false} SumsFrom(a: nat, b: nat, data: seq<Byte>)
    ensures SumA(a, data) == a + SumA(0, data)
    ensures SumB(a, b, data) == b + |data| * a + SumB(0, 0, data)
    decreases |data|
  {
    if data != [] {
      SumsFrom(a, b, data[..|data| - 1]);
      assert (|data| - 1) * a + a == |data| * a;
    }
  }

  /** x and y differ by a multiple of BASE. */
  predicate Congruent(x: int, y: int) {
    (x - y) % BASE == 0
  }

  /** The checksum of two pieces from the checksums of each. */
  lemma CombinedSums(x: seq<Byte>, y: seq<Byte>)
    ensures var s, t, u := Adler(START, x), Adler(START, y), Adler(START, x + y);
            && Reduced(s) && Reduced(t) && Reduced(u)
            && Congruent(u.a, s.a + t.a - 1)
            && Congruent(u.b, s.b + t.b + |y| * s.a - |y|)
  {
    hide Adler, SumA, SumB, Congruent;
    var s, t := Adler(START, x), Adler(START, y);
    AdlerReduced(START, x);
    AdlerReduced(START, y);
    AdlerReduced(START, x + y);
    AdlerAppend(START, x, y);
    ReducedMod(s);
    ReducedMod(START);
    ReduceAtEnd(s, y);
    ReduceAtEnd(START, y);
    SumsFrom(s.a, s.b, y);
    SumsFrom(1, 0, y);
    var p, q := SumA(0, y), SumB(0, 0, y);
    FromParts(s.a + p, 1 + p, s.a - 1);
    FromParts(s.b + |y| * s.a + q, |y| + q, s.b + |y| * s.a - |y|);
  }

  lemma ReducedMod(s: Sums)
    requires Reduced(s)
    ensures Mod(s) == s
  {
  }

  lemma FromParts(x: nat, y: nat, d: int)
    requires x == y + d
    ensures Congruent(x % BASE, y % BASE + d)
  {
    var k, l := x / BASE, y / BASE;
    assert x == BASE * k + x % BASE && y == BASE * l + y % BASE;
    assert x % BASE - (y % BASE + d) == BASE * (l - k);
    MultipleMod(l - k);
  }

  lemma MultipleMod(k: int)
    ensures (BASE * k) % BASE == 0
  {
  }

  /** Takes BASE off if the sum is larger. */
  function Off(x: nat, n: nat): nat {
    if x > n then x - n else x
  }

  /** Combines the checksums of two pieces, the second of len2 bytes. */
  method Combine(adler1: nat, adler2: nat, len2: nat) returns (r: Sums)
    ensures var s, t := Halves(adler1), Halves(adler2);
            && Congruent(r.a, s.a + t.a - 1) && Congruent(r.b, s.b + t.b + len2 * s.a - len2)
            && (s.a <= BASE && t.a <= BASE ==> 1 <= r.a <= BASE)
            && (s.b <= BASE && t.b <= BASE ==> 1 <= r.b <= BASE)
  {
    hide Congruent, Halves, Product;
    HalvesSmall(adler1);
    HalvesSmall(adler2);
    var s, t := Halves(adler1), Halves(adler2);
    var rem := len2 % BASE;
    ProductMod(rem, s.a);
    var product := Product(rem, s.a);
    var sum1 := s.a + t.a + BASE - 1;
    var sum2 := product + s.b + t.b + BASE - rem;
    sum1 := Off(Off(sum1, BASE), BASE);
    sum2 := Off(Off(sum2, 2 * BASE), BASE);
    SameUpToBase(sum1, s.a + t.a - 1);
    CombinedSecond(s.a, s.b, t.b, len2, rem, product, sum2);
    return Sums(sum1, sum2);
  }

  /** rem times a in 32-bit arithmetic, reduced. */
  function Product(rem: nat, a: nat): nat {
    U32(rem * a) % BASE
  }

  lemma ProductMod(rem: nat, a: nat)
    requires rem < BASE && a < 65536
    ensures Product(rem, a) == (rem * a) % BASE < BASE
  {
    var p := rem * a;
    assert p < WORD by {
      ProductBound(rem, BASE - 1, a, 65535);
    }
    assert p >= 0;
    SmallMod(p);
  }

  lemma SmallMod(p: nat)
    requires p < WORD
    ensures U32(p) % BASE == p % BASE < BASE
  {
  }

  lemma ProductBound(x: nat, m: nat, y: nat, n: nat)
    requires x <= m && y <= n
    ensures x * y <= m * n
  {
    assert x * y <= m * y;
    assert m * y <= m * n;
  }

  lemma SameUpToBase(x: nat, y: int)
    requires x == y || x == y + BASE || x == y - BASE
    ensures Congruent(x, y)
  {
  }

  lemma CombinedSecond(a: nat, b1: nat, b2: nat, len: nat, rem: nat, product: nat, r: nat)
    requires rem == len % BASE && product == (rem * a) % BASE
    requires var t := product + b1 + b2 + BASE - rem; r == t || r == t - BASE || r == t - 2 * BASE || r == t - 3 * BASE
    ensures Congruent(r, b1 + b2 + len * a - len)
  {
    var k := len / BASE;
    assert len == BASE * k + rem;
    var l := (rem * a) / BASE;
    assert rem * a == BASE * l + product;
    Distribute(k, rem, a, len);
    var d := r - (b1 + b2 + len * a - len);
    var m := if r == product + b1 + b2 + BASE - rem then 1
             else if r == product + b1 + b2 - rem then 0
             else if r == product + b1 + b2 + BASE - rem - 2 * BASE then -1 else -2;
    assert d == BASE * m - BASE * l - BASE * k * a + BASE * k;
    Collect(m, l, k, a);
    MultipleMod(m - l - k * a + k);
  }

  lemma Distribute(k: int, rem: nat, a: nat, len: nat)
    requires len == BASE * k + rem
    ensures len * a == BASE * k * a + rem * a
  {
  }

  lemma Collect(m: int, l: int, k: int, a: int)
    ensures BASE * m - BASE * l - BASE * k * a + BASE * k == BASE * (m - l - k * a + k)
  {
  }

  lemma OnlyOne(x: nat, y: nat, z: int)
    requires Congruent(x, z) && Congruent(y, z) && y < BASE && 1 <= x <= BASE
    ensures x == y || (x == BASE && y == 0)
  {
  }

  /** Combining gives the checksum of both pieces, except that a half that should be 0 is
      BASE: the tests are for larger, not for larger or equal. */
  method CombinePieces(x: seq<Byte>, y: seq<Byte>) returns (r: Sums)
    ensures var u := Adler(START, x + y);
            && r == Sums(if u.a == 0 then BASE else u.a, if u.b == 0 then BASE else u.b)
            && (r == u <==> u.a != 0 && u.b != 0)
  {
    hide Adler, Congruent;
    ghost var s, t, u := Adler(START, x), Adler(START, y), Adler(START, x + y);
    CombinedSums(x, y);
    WordHalves(Adler(START, x));
    WordHalves(Adler(START, y));
    r := Combine(Word(Adler(START, x)), Word(Adler(START, y)), |y|);
    OnlyOne(r.a, u.a, s.a + t.a - 1);
    OnlyOne(r.b, u.b, s.b + t.b + |y| * s.a - |y|);
  }

  /** Already combining two empty pieces is off. */
  method CombineEmpty() returns (r: Sums)
    ensures r == Sums(1, BASE) && r != Adler(START, [] + [])
  {
    assert Adler(START, [] + []) == START;
    r := CombinePieces([], []);
  }

  // ---------- the value of a checksum ----------

  /** The checksum of data in closed form. */
  lemma AdlerOf(data: seq<Byte>)
    ensures Adler(START, data) == Sums((1 + Plain(data)) % BASE, (|data| + Weighted(data)) % BASE)
  {
    hide SumA, SumB, Adler;
    ReduceAtEnd(START, data);
    SumsAre(1, 0, data);
  }

  // ---------- the modulus ----------

  ghost predicate Prime(n: nat) {
    n > 1 && forall d: nat {:trigger n % d} :: 1 < d < n ==> n % d != 0
  }

  /** How many of the numbers 2..d divide n. */
  function Divisors(n: nat, d: nat): nat {
    if d < 2 then 0 else Divisors(n, d - 1) + if n % d == 0 then 1 else 0
  }

  lemma {:induction false} NoDivisors(n: nat, k: nat, d: nat)
    requires Divisors(n, k) == 0 && 2 <= d <= k
    ensures n % d != 0
  {
    if d < k {
      NoDivisors(n, k - 1, d);
    }
  }

  lemma NoDivisorUpTo65()
    ensures Divisors(BASE, 65) == 0
  {
    assert Divisors(BASE, 9) == 0;
    assert Divisors(BASE, 17) == 0;
    assert Divisors(BASE, 25) == 0;
    assert Divisors(BASE, 33) == 0;
    assert Divisors(BASE, 41) == 0;
    assert Divisors(BASE, 49) == 0;
    assert Divisors(BASE, 57) == 0;
  }

  lemma NoDivisorUpTo129()
    requires Divisors(BASE, 65) == 0
    ensures Divisors(BASE, 129) == 0
  {
    assert Divisors(BASE, 73) == 0;
    assert Divisors(BASE, 81) == 0;
    assert Divisors(BASE, 89) == 0;
    assert Divisors(BASE, 97) == 0;
    assert Divisors(BASE, 105) == 0;
    assert Divisors(BASE, 113) == 0;
    assert Divisors(BASE, 121) == 0;
  }

  lemma NoDivisorUpTo193()
    requires Divisors(BASE, 129) == 0
    ensures Divisors(BASE, 193) == 0
  {
    assert Divisors(BASE, 137) == 0;
    assert Divisors(BASE, 145) == 0;
    assert Divisors(BASE, 153) == 0;
    assert Divisors(BASE, 161) == 0;
    assert Divisors(BASE, 169) == 0;
    assert Divisors(BASE, 177) == 0;
    assert Divisors(BASE, 185) == 0;
  }

  lemma NoDivisorUpTo225()
    requires Divisors(BASE, 193) == 0
    ensures Divisors(BASE, 225) == 0
  {
    assert Divisors(BASE, 201) == 0;
    assert Divisors(BASE, 209) == 0;
    assert Divisors(BASE, 217) == 0;
  }

  lemma NoDivisorUpTo255()
    requires Divisors(BASE, 225) == 0
    ensures Divisors(BASE, 255) == 0
  {
    assert Divisors(BASE, 233) == 0;
    assert Divisors(BASE, 241) == 0;
    assert Divisors(BASE, 249) == 0;
  }

  lemma BaseHasNoDivisors()
    ensures Divisors(BASE, 255) == 0
  {
    hide Divisors;
    NoDivisorUpTo65();
    NoDivisorUpTo129();
    NoDivisorUpTo193();
    NoDivisorUpTo225();
    NoDivisorUpTo255();
  }

  lemma Quotient(n: nat, d: nat)
    requires d > 0 && n % d == 0 && n >= d
    ensures n / d >= 1 && n % (n / d) == 0 && (n / d) * d == n
  {
    var q := n / d;
    assert n == q * d;
    MultipleOf(d, q);
  }

  lemma MultipleOf(d: nat, q: nat)
    requires q > 0
    ensures (q * d) % q == 0
  {
    var y := q * d;
    var e := y / q;
    assert y == q * e + y % q;
    assert q * (e + 1) == q * e + q;
    if e < d {
      LessTimes(e + 1, d, q);
    } else {
      LessTimes(d, e, q);
    }
  }

  lemma LessTimes(a: nat, b: nat, q: nat)
    requires a <= b
    ensures q * a <= q * b
  {
  }

  /** BASE is the largest prime below 65536. */
  lemma BaseIsLargestPrime()
    ensures Prime(BASE) && forall n: nat {:trigger Prime(n)} :: BASE < n < 65536 ==> !Prime(n)
  {
    BaseHasNoDivisors();
    forall d: nat | 1 < d < BASE ensures BASE % d != 0 {
      if d <= 255 {
        NoDivisors(BASE, 255, d);
      } else if BASE % d == 0 {
        Quotient(BASE, d);
        var q := BASE / d;
        assert q >= 2 && q <= 255;
        NoDivisors(BASE, 255, q);
      }
    }
    forall n: nat | BASE < n < 65536 ensures !Prime(n) {
      assert n % 2 == 0 || n % 3 == 0 || n % 5 == 0 || n % 7 == 0 || n % 13 == 0 || n % 19 == 0;
    }
  }
}
