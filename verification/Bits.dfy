/** Unsigned words as natural numbers: powers of two, shifts, low bits and
    bit reversal. */
module Bits {

  type Byte = n: nat | n < 256

  /** A buffer that is handed over, or none. */
  datatype Buffer = Null | Bytes(data: seq<Byte>)

  function Pow2(n: nat): (r: nat)
    ensures r >= 1
  {
    if n == 0 then 1 else 2 * Pow2(n - 1)
  }

  /** x << n */
  function Shl(x: nat, n: nat): nat
    decreases n
  {
    if n == 0 then x else 2 * Shl(x, n - 1)
  }

  /** x >> n */
  function Shr(x: nat, n: nat): nat
    decreases n
  {
    if n == 0 then x else Shr(x / 2, n - 1)
  }

  /** The low n bits of x: x & ((1 << n) - 1). */
  function Low(x: nat, n: nat): (r: nat)
    ensures r < Pow2(n)
    decreases n
  {
    if n == 0 then 0 else x % 2 + 2 * Low(x / 2, n - 1)
  }

  /** The low n bits of x in reverse order. */
  function Rev(n: nat, x: nat): (r: nat)
    ensures r < Pow2(n)
    decreases n
  {
    if n == 0 then 0 else (if x % 2 == 1 then Pow2(n - 1) else 0) + Rev(n - 1, x / 2)
  }

  lemma {:induction false} Pow2Shl(m: nat, n: nat)
    ensures Shl(Pow2(m), n) == Pow2(m + n)
    ensures Shl(1, n) == Pow2(n)
  {
    if n > 0 {
      Pow2Shl(m, n - 1);
    }
  }

  lemma {:induction false} Shl0(n: nat)
    ensures Shl(0, n) == 0
  {
    if n > 0 {
      Shl0(n - 1);
    }
  }

  lemma ShlNone(x: nat)
    ensures Shl(x, 0) == x
  {
  }

  lemma {:induction false} ShlAdd(x: nat, y: nat, n: nat)
    ensures Shl(x + y, n) == Shl(x, n) + Shl(y, n)
  {
    if n > 0 {
      ShlAdd(x, y, n - 1);
    }
  }

  lemma {:induction false} ShlDouble(x: nat, n: nat)
    ensures Shl(2 * x, n) == Shl(x, n + 1)
  {
    if n > 0 {
      ShlDouble(x, n - 1);
    }
  }

  lemma {:induction false} ShlMonotone(x: nat, y: nat, n: nat)
    ensures x < y <==> Shl(x, n) < Shl(y, n)
  {
    if n > 0 {
      ShlMonotone(x, y, n - 1);
    }
  }

  lemma {:induction false} ShlShr(x: nat, n: nat)
    ensures Low(Shl(x, n), n) == 0 && Shr(Shl(x, n), n) == x
  {
    if n > 0 {
      ShlShr(x, n - 1);
    }
  }

  lemma {:induction false} ShlShl(x: nat, m: nat, n: nat)
    ensures Shl(Shl(x, m), n) == Shl(x, m + n)
  {
    if n > 0 {
      ShlShl(x, m, n - 1);
    }
  }

  lemma {:induction false} LowAddShl(c: nat, q: nat, t: nat)
    requires c < Pow2(t)
    ensures Low(c + Shl(q, t), t) == c && Shr(c + Shl(q, t), t) == q
  {
    if q == 0 {
      Shl0(t);
      LowSmall(c, t);
    } else {
      LowAddShl(c, q - 1, t);
      ShlAdd(q - 1, 1, t);
      Pow2Shl(0, t);
      AddPow2(c + Shl(q - 1, t), t);
    }
  }

  lemma {:induction false} Pow2Monotone(m: nat, n: nat)
    requires m <= n
    ensures Pow2(m) <= Pow2(n)
    decreases n
  {
    if m < n {
      Pow2Monotone(m, n - 1);
    }
  }

  lemma {:induction false} LowShr(x: nat, n: nat)
    ensures x == Low(x, n) + Shl(Shr(x, n), n)
    decreases n
  {
    if n > 0 {
      LowShr(x / 2, n - 1);
    }
  }

  lemma {:induction false} LowSmall(x: nat, n: nat)
    requires x < Pow2(n)
    ensures Low(x, n) == x && Shr(x, n) == 0
    decreases n
  {
    if n > 0 {
      LowSmall(x / 2, n - 1);
    }
  }

  lemma {:induction false} LowLow(x: nat, m: nat, n: nat)
    requires n <= m
    ensures Low(Low(x, m), n) == Low(x, n)
    decreases n
  {
    if n > 0 {
      assert Low(x, m) % 2 == x % 2 && Low(x, m) / 2 == Low(x / 2, m - 1);
      LowLow(x / 2, m - 1, n - 1);
    }
  }

  lemma {:induction false} ShrShr(x: nat, m: nat, n: nat)
    ensures Shr(Shr(x, m), n) == Shr(x, m + n)
    decreases m
  {
    if m > 0 {
      ShrShr(x / 2, m - 1, n);
    }
  }

  /** (low m+n bits) >> m are the low n bits of x >> m. */
  lemma {:induction false} ShrLow(x: nat, m: nat, n: nat)
    ensures Shr(Low(x, m + n), m) == Low(Shr(x, m), n)
    decreases m
  {
    if m > 0 {
      ShrLow(x / 2, m - 1, n);
    }
  }

  /** Two words agree on m+n bits exactly when they do on the low m and the n above. */
  lemma LowSplit(x: nat, y: nat, m: nat, n: nat)
    ensures Low(x, m + n) == Low(y, m + n) <==> Low(x, m) == Low(y, m) && Low(Shr(x, m), n) == Low(Shr(y, m), n)
  {
    hide Low, Shr, Shl, Pow2;
    LowParts(x, m, n);
    LowParts(y, m, n);
  }

  /** m low bits and n bits above them. */
  lemma LowParts(x: nat, m: nat, n: nat)
    ensures Low(x, m + n) == Low(x, m) + Shl(Low(Shr(x, m), n), m)
    ensures Low(Low(x, m + n), m) == Low(x, m) && Shr(Low(x, m + n), m) == Low(Shr(x, m), n)
  {
    hide Low, Shr, Shl, Pow2;
    LowLow(x, m + n, m);
    ShrLow(x, m, n);
    LowShr(Low(x, m + n), m);
  }

  lemma {:induction false} ShrMonotone(x: nat, y: nat, n: nat)
    requires x <= y
    ensures Shr(x, n) <= Shr(y, n)
    decreases n
  {
    if n > 0 {
      ShrMonotone(x / 2, y / 2, n - 1);
    }
  }

  lemma {:induction false} ShrBound(x: nat, m: nat, n: nat)
    requires n <= m && x < Pow2(m)
    ensures Shr(x, m - n) < Pow2(n)
    decreases m
  {
    if n < m {
      ShrBound(x / 2, m - 1, n);
    }
  }

  lemma {:induction false} AddPow2(x: nat, n: nat)
    ensures Shr(x + Pow2(n), n) == Shr(x, n) + 1
    ensures forall j: nat :: j <= n ==> Low(x + Pow2(n), j) == Low(x, j)
    decreases n
  {
    if n > 0 {
      AddPow2(x / 2, n - 1);
      assert (x + Pow2(n)) / 2 == x / 2 + Pow2(n - 1);
      forall j: nat | 0 < j <= n ensures Low(x + Pow2(n), j) == Low(x, j) {
        assert Low((x + Pow2(n)) / 2, j - 1) == Low(x / 2, j - 1);
      }
    }
  }

  // ---------- reversal ----------

  /** The low bits of a reversed word are its high bits reversed. */
  lemma {:induction false} LowRev(n: nat, x: nat, j: nat)
    requires j <= n
    ensures Low(Rev(n, x), j) == Rev(j, Shr(x, n - j))
    decreases n
  {
    hide Low, Pow2;
    if j == n {
      LowSmall(Rev(n, x), n);
    } else {
      LowRev(n - 1, x / 2, j);
      if x % 2 == 1 {
        AddPow2(Rev(n - 1, x / 2), n - 1);
      }
    }
  }

  lemma {:induction false} RevInjective(n: nat, x: nat, y: nat)
    requires x < Pow2(n) && y < Pow2(n) && Rev(n, x) == Rev(n, y)
    ensures x == y
  {
    if n > 0 {
      RevInjective(n - 1, x / 2, y / 2);
    }
  }

  /** Zeros appended to a code do not change its reversal. */
  lemma {:induction false} RevZeros(m: nat, n: nat, x: nat)
    requires m <= n && Low(x, n - m) == 0
    ensures Rev(n, x) == Rev(m, Shr(x, n - m))
    decreases n
  {
    if m < n {
      RevZeros(m, n - 1, x / 2);
    }
  }

  lemma {:induction false} RevAppend(n: nat, x: nat)
    ensures Rev(n + 1, x) == 2 * Rev(n, x) + Shr(x, n) % 2
    decreases n
  {
    if n > 0 {
      RevAppend(n - 1, x / 2);
    }
  }

  lemma {:induction false} RevOfLow(n: nat, x: nat, m: nat)
    requires n <= m
    ensures Rev(n, Low(x, m)) == Rev(n, x)
    decreases n
  {
    if n > 0 {
      RevOfLow(n - 1, x / 2, m - 1);
    }
  }

  /** Reversing twice gives the bits back. */
  lemma {:induction false} RevRev(n: nat, x: nat)
    ensures Rev(n, Rev(n, x)) == Low(x, n)
    decreases n
  {
    if n > 0 {
      RevRev(n - 1, x / 2);
      RevRevStep(n, x);
    }
  }

  lemma RevRevStep(n: nat, x: nat)
    requires n > 0 && Rev(n - 1, Rev(n - 1, x / 2)) == Low(x / 2, n - 1)
    ensures Rev(n, Rev(n, x)) == Low(x, n)
  {
    hide Rev, Shr, Pow2;
    var y := Rev(n, x);
    RevParts(n, x);
    RevAppend(n - 1, y);
    RevOfLow(n - 1, y, n - 1);
    assert Rev(n - 1, y) == Low(x / 2, n - 1);
    assert Shr(y, n - 1) % 2 == x % 2;
  }

  lemma RevParts(n: nat, x: nat)
    requires n > 0
    ensures Low(Rev(n, x), n - 1) == Rev(n - 1, x / 2) && Shr(Rev(n, x), n - 1) == x % 2
  {
    hide Low, Shr, Pow2;
    var low := Rev(n - 1, x / 2);
    LowSmall(low, n - 1);
    AddPow2(low, n - 1);
  }

  lemma {:induction false} RevPow2(n: nat)
    ensures Rev(n, Pow2(n)) == 0
    ensures n > 0 ==> Rev(n, Pow2(n - 1)) == 1
  {
    if n > 0 {
      RevPow2(n - 1);
      assert Pow2(n) % 2 == 0 && Pow2(n) / 2 == Pow2(n - 1);
    }
  }

  /** Reverses the low len bits of a code, low bit first. */
  method BiReverse(code: nat, len: nat) returns (r: nat)
    requires len >= 1
    ensures r == Rev(len, code)
  {
    var res, c, l := 0, code, len;
    ghost var i := 0;
    while true
      invariant i == len - l && 0 < l <= len
      invariant res == 2 * Rev(i, code) && c == Shr(code, i)
      decreases l
    {
      RevAppend(i, code);
      ShrShr(code, i, 1);
      res := res + c % 2;
      c := c / 2;
      res := res * 2;
      l := l - 1;
      i := i + 1;
      if l == 0 {
        break;
      }
    }
    r := res / 2;
  }

  /** The code huff of len bits, stored in reverse, incremented. */
  function BackIncrement(len: nat, huff: nat): nat
    decreases len
  {
    if len == 0 then 0
    else if Shr(huff, len - 1) % 2 == 1 then BackIncrement(len - 1, Low(huff, len - 1))
    else huff + Pow2(len - 1)
  }

  lemma {:induction false} BackIncrementRev(len: nat, c: nat)
    ensures BackIncrement(len, Rev(len, c)) == Rev(len, c + 1)
    decreases len
  {
    hide Low, Shr, Pow2;
    if len > 0 {
      RevParts(len, c);
      if c % 2 == 1 {
        BackIncrementRev(len - 1, c / 2);
        assert (c + 1) / 2 == c / 2 + 1;
      } else {
        assert (c + 1) / 2 == c / 2;
      }
    }
  }

  lemma BackIncrementCarry(huff: nat, k: nat)
    requires k > 0 && Shr(huff, k - 1) % 2 == 1
    ensures BackIncrement(k, Low(huff, k)) == BackIncrement(k - 1, Low(huff, k - 1))
  {
    LowLow(huff, k, k - 1);
    BitOfLow(huff, k);
  }

  lemma BackIncrementStop(huff: nat, k: nat)
    requires k > 0 && Shr(huff, k - 1) % 2 == 0
    ensures BackIncrement(k, Low(huff, k)) == Low(huff, k - 1) + Pow2(k - 1)
  {
    LowLow(huff, k, k - 1);
    BitOfLow(huff, k);
    LowShr(Low(huff, k), k - 1);
    Shl0(k - 1);
  }

  lemma BitOfLow(x: nat, k: nat)
    requires k > 0
    ensures Shr(Low(x, k), k - 1) == Shr(x, k - 1) % 2
  {
    ShrLow(x, k - 1, 1);
    assert Low(Shr(x, k - 1), 1) == Shr(x, k - 1) % 2 + 2 * Low(Shr(x, k - 1) / 2, 0);
  }

  /** The increment loop: clears the run of ones at the top and sets the bit below it. */
  method Increment(len: nat, huff: nat) returns (r: nat)
    requires len >= 1 && huff < Pow2(len)
    ensures r == BackIncrement(len, huff)
  {
    hide Low, Shr, Pow2, BackIncrement;
    LowSmall(huff, len);
    var k := len;
    // incr is 1 << (k - 1), or 0 when k is 0
    while k != 0 && Shr(huff, k - 1) % 2 == 1
      invariant 0 <= k <= len
      invariant BackIncrement(len, huff) == BackIncrement(k, Low(huff, k))
    {
      BackIncrementCarry(huff, k);
      k := k - 1;
    }
    if k != 0 {
      BackIncrementStop(huff, k);
      r := Low(huff, k - 1) + Pow2(k - 1);
    } else {
      BackIncrementNone(Low(huff, 0));
      r := 0;
    }
  }

  lemma BackIncrementNone(x: nat)
    ensures BackIncrement(0, x) == 0
  {
  }

  /** Fewer bits of the first n. */
  lemma PartOfLow(low: nat, high: nat, n: nat, k: nat)
    requires low < Pow2(n) && k <= n
    ensures Low(low + Shl(high, n), k) == Low(low, k)
  {
    LowAddShl(low, high, n);
    LowLow(low + Shl(high, n), n, k);
  }
}
