/** Canonical Huffman codes (section 3.2.2 of RFC 1951). A code of length l
    owns an interval of Pow2(w - l) of the w-bit numbers; codes are assigned
    to symbols in order of length, then of symbol. */
module Huffman {
  import opened Bits

  /** zlib's longest code, MAX_BITS in trees.c and MAXBITS in inftrees.c. The facts
      below hold for codes of up to w bits, whatever w is. */
  const MAXBITS: nat := 15

  ghost predicate LensOK(w: nat, lens: seq<nat>) {
    forall i {:trigger lens[i]} :: 0 <= i < |lens| ==> lens[i] <= w
  }

  /** The symbols of length l in increasing order. */
  function SymsOf(lens: seq<nat>, l: nat): (r: seq<nat>)
    ensures forall j {:trigger r[j]} :: 0 <= j < |r| ==> r[j] < |lens| && lens[r[j]] == l
  {
    if lens == [] then []
    else
      var n := |lens| - 1;
      SymsOf(lens[..n], l) + if lens[n] == l then [n] else []
  }

  /** The symbols of lengths 1..l in canonical order. */
  function Canon(lens: seq<nat>, l: nat): (r: seq<nat>)
    ensures forall j {:trigger r[j]} :: 0 <= j < |r| ==> r[j] < |lens| && 1 <= lens[r[j]] <= l
  {
    if l == 0 then [] else Canon(lens, l - 1) + SymsOf(lens, l)
  }

  function Work(w: nat, lens: seq<nat>): seq<nat> {
    Canon(lens, w)
  }

  function Count(lens: seq<nat>, l: nat): nat {
    |SymsOf(lens, l)|
  }

  // ---------- the canonical order ----------

  lemma {:induction false} CanonPrefix(lens: seq<nat>, l: nat, m: nat)
    requires l <= m
    ensures Canon(lens, l) <= Canon(lens, m)
  {
    if l < m {
      CanonPrefix(lens, l, m - 1);
    }
  }

  /** Which positions of the canonical order hold the symbols of length l. */
  lemma CanonLevel(w: nat, lens: seq<nat>, l: nat, k: nat)
    requires 1 <= l <= w && |Canon(lens, l - 1)| <= k < |Canon(lens, l)|
    ensures k < |Work(w, lens)| && Work(w, lens)[k] == SymsOf(lens, l)[k - |Canon(lens, l - 1)|] && lens[Work(w, lens)[k]] == l
  {
    CanonPrefix(lens, l, w);
  }

  lemma LevelOf(w: nat, lens: seq<nat>, k: nat)
    requires k < |Work(w, lens)|
    ensures var l := lens[Work(w, lens)[k]]; 1 <= l <= w && |Canon(lens, l - 1)| <= k < |Canon(lens, l)|
  {
    hide SymsOf, Canon;
    var l := FindLevel(lens, w, k);
    CanonLevel(w, lens, l, k);
  }

  lemma {:induction false} FindLevel(lens: seq<nat>, m: nat, k: nat) returns (l: nat)
    requires k < |Canon(lens, m)|
    ensures 1 <= l <= m && |Canon(lens, l - 1)| <= k < |Canon(lens, l)|
  {
    hide SymsOf, Canon;
    assert m > 0 by {
      CanonNone(lens);
    }
    if k < |Canon(lens, m - 1)| {
      l := FindLevel(lens, m - 1, k);
    } else {
      l := m;
    }
  }

  lemma Ordered(w: nat, lens: seq<nat>, i: nat, j: nat)
    requires i <= j < |Work(w, lens)|
    ensures lens[Work(w, lens)[i]] <= lens[Work(w, lens)[j]]
  {
    hide SymsOf, Canon;
    LevelOf(w, lens, i);
    LevelOf(w, lens, j);
    var l, m := lens[Work(w, lens)[i]], lens[Work(w, lens)[j]];
    if m < l {
      CanonPrefix(lens, m, l - 1);
    }
  }

  lemma {:induction false} SymsPrefix(lens: seq<nat>, n: nat, l: nat)
    requires n < |lens|
    ensures SymsOf(lens[..n], l) <= SymsOf(lens, l)
    ensures lens[n] == l ==> Count(lens[..n], l) < Count(lens, l) && SymsOf(lens, l)[Count(lens[..n], l)] == n
    decreases |lens|
  {
    var last := |lens| - 1;
    if n < last {
      SymsPrefix(lens[..last], n, l);
      assert lens[..last][..n] == lens[..n];
    }
  }

  /** The position of a symbol in the canonical order. */
  function Pos(lens: seq<nat>, n: nat): nat
    requires n < |lens| && lens[n] > 0
  {
    |Canon(lens, lens[n] - 1)| + Count(lens[..n], lens[n])
  }

  lemma WorkAtPos(w: nat, lens: seq<nat>, n: nat)
    requires LensOK(w, lens) && n < |lens| && lens[n] > 0
    ensures Pos(lens, n) < |Work(w, lens)| && Work(w, lens)[Pos(lens, n)] == n
  {
    SymsPrefix(lens, n, lens[n]);
    CanonLevel(w, lens, lens[n], Pos(lens, n));
  }

  // ---------- where the intervals start ----------

  /** The total width of the first k codes. */
  function Start(w: nat, lens: seq<nat>, k: nat): nat
    requires k <= |Work(w, lens)|
  {
    if k == 0 then 0 else Start(w, lens, k - 1) + Pow2(w - lens[Work(w, lens)[k - 1]])
  }

  /** The total width of the codes of length at most l. */
  function Kraft(w: nat, lens: seq<nat>, l: nat): nat
    requires l <= w
  {
    if l == 0 then 0 else Kraft(w, lens, l - 1) + Shl(Count(lens, l), w - l)
  }

  lemma {:induction false} StartMonotone(w: nat, lens: seq<nat>, i: nat, j: nat)
    requires i <= j <= |Work(w, lens)|
    ensures Start(w, lens, i) <= Start(w, lens, j)
    decreases j
  {
    if i < j {
      StartMonotone(w, lens, i, j - 1);
    }
  }

  lemma CanonLength(lens: seq<nat>, l: nat)
    requires l > 0
    ensures |Canon(lens, l)| == |Canon(lens, l - 1)| + Count(lens, l)
  {
  }

  lemma StartStep(w: nat, lens: seq<nat>, l: nat, k: nat)
    requires 1 <= l <= w && |Canon(lens, l - 1)| <= k < |Canon(lens, l)|
    ensures k < |Work(w, lens)| && Start(w, lens, k + 1) == Start(w, lens, k) + Pow2(w - l)
  {
    hide SymsOf, Canon, Pow2;
    CanonLevel(w, lens, l, k);
  }

  /** Within one length, codes are consecutive. */
  lemma {:induction false} StartInLevel(w: nat, lens: seq<nat>, l: nat, i: nat)
    requires 1 <= l <= w && i <= Count(lens, l)
    ensures var k := |Canon(lens, l - 1)| + i;
            k <= |Work(w, lens)| && Start(w, lens, k) == Kraft(w, lens, l - 1) + Shl(i, w - l)
    decreases l, i
  {
    hide SymsOf, Canon, Count, Shl;
    CanonPrefix(lens, l, w);
    CanonLength(lens, l);
    if i == 0 {
      Shl0(w - l);
      if l > 1 {
        CanonLength(lens, l - 1);
        StartInLevel(w, lens, l - 1, Count(lens, l - 1));
      } else {
        CanonNone(lens);
      }
    } else {
      StartInLevel(w, lens, l, i - 1);
      StartStep(w, lens, l, |Canon(lens, l - 1)| + i - 1);
      ShlAdd(i - 1, 1, w - l);
      Pow2Shl(0, w - l);
    }
  }

  lemma CanonNone(lens: seq<nat>)
    ensures Canon(lens, 0) == []
  {
  }

  lemma StartAfterLevel(w: nat, lens: seq<nat>, l: nat)
    requires l <= w
    ensures |Canon(lens, l)| <= |Work(w, lens)| && Start(w, lens, |Canon(lens, l)|) == Kraft(w, lens, l)
  {
    hide SymsOf, Canon, Count, Shl;
    if l > 0 {
      CanonLength(lens, l);
      StartInLevel(w, lens, l, Count(lens, l));
    } else {
      CanonNone(lens);
    }
  }

  lemma {:induction false} AlignedTo(w: nat, lens: seq<nat>, i: nat, m: nat)
    requires i <= |Work(w, lens)|
    requires forall j {:trigger Work(w, lens)[j]} :: 0 <= j < i ==> m <= w - lens[Work(w, lens)[j]]
    ensures Low(Start(w, lens, i), m) == 0
  {
    if i == 0 {
      LowSmall(0, m);
    } else {
      AlignedTo(w, lens, i - 1, m);
      AddPow2(Start(w, lens, i - 1), w - lens[Work(w, lens)[i - 1]]);
    }
  }

  /** A code of length l starts at a multiple of its width. */
  lemma Aligned(w: nat, lens: seq<nat>, k: nat)
    requires k < |Work(w, lens)|
    ensures Low(Start(w, lens, k), w - lens[Work(w, lens)[k]]) == 0
    ensures Low(Start(w, lens, k + 1), w - lens[Work(w, lens)[k]]) == 0
  {
    var m := w - lens[Work(w, lens)[k]];
    forall j | 0 <= j <= k ensures m <= w - lens[Work(w, lens)[j]] {
      Ordered(w, lens, j, k);
    }
    AlignedTo(w, lens, k, m);
    AlignedTo(w, lens, k + 1, m);
  }

  /** The k-th code as it is stored: reversed, first bit lowest. */
  function Huff(w: nat, lens: seq<nat>, k: nat): nat
    requires k <= |Work(w, lens)|
  {
    Rev(w, Start(w, lens, k))
  }

  ghost predicate NotOversubscribed(w: nat, lens: seq<nat>) {
    Kraft(w, lens, w) <= Pow2(w)
  }

  lemma StartBound(w: nat, lens: seq<nat>, k: nat)
    requires NotOversubscribed(w, lens) && k < |Work(w, lens)|
    ensures Start(w, lens, k) + Pow2(w - lens[Work(w, lens)[k]]) <= Pow2(w)
    ensures Start(w, lens, k) < Pow2(w)
  {
    StartAfterLevel(w, lens, w);
    StartMonotone(w, lens, k + 1, |Work(w, lens)|);
  }

  /** The stored code is the code proper, of its own length, reversed. */
  lemma HuffOwnLength(w: nat, lens: seq<nat>, k: nat)
    requires k < |Work(w, lens)|
    ensures var l := lens[Work(w, lens)[k]]; Huff(w, lens, k) == Rev(l, Shr(Start(w, lens, k), w - l))
  {
    Aligned(w, lens, k);
    RevZeros(lens[Work(w, lens)[k]], w, Start(w, lens, k));
  }

  /** No code begins with an earlier one. */
  lemma PrefixFree(w: nat, lens: seq<nat>, i: nat, j: nat)
    requires NotOversubscribed(w, lens) && i < j < |Work(w, lens)|
    ensures Low(Huff(w, lens, j), lens[Work(w, lens)[i]]) != Huff(w, lens, i)
  {
    hide SymsOf, Canon, Rev, Low, Shr, Pow2;
    var l := lens[Work(w, lens)[i]];
    var m := w - l;
    LowRev(w, Start(w, lens, j), l);
    HuffOwnLength(w, lens, i);
    StartBound(w, lens, i);
    StartBound(w, lens, j);
    ShrBound(Start(w, lens, i), w, l);
    ShrBound(Start(w, lens, j), w, l);
    StartMonotone(w, lens, i + 1, j);
    AddPow2(Start(w, lens, i), m);
    ShrMonotone(Start(w, lens, i + 1), Start(w, lens, j), m);
    if Rev(l, Shr(Start(w, lens, j), m)) == Rev(l, Shr(Start(w, lens, i), m)) {
      RevInjective(l, Shr(Start(w, lens, j), m), Shr(Start(w, lens, i), m));
    }
  }

  // ---------- the encoder's codes ----------

  /** The code of symbol n as the encoder sends it. */
  function CodeOf(w: nat, lens: seq<nat>, n: nat): nat
    requires LensOK(w, lens) && n < |lens| && lens[n] > 0
  {
    WorkAtPos(w, lens, n);
    Huff(w, lens, Pos(lens, n))
  }

  lemma QuotientBound(w: nat, c: nat, l: nat)
    requires l <= w && Shl(c, w - l) <= Pow2(w)
    ensures c <= Pow2(l)
  {
    Pow2Shl(l, w - l);
    ShlMonotone(Pow2(l), c, w - l);
  }

  lemma {:induction false} KraftMonotone(w: nat, lens: seq<nat>, l: nat, m: nat)
    requires l <= m <= w
    ensures Kraft(w, lens, l) <= Kraft(w, lens, m)
  {
    if l < m {
      KraftMonotone(w, lens, l, m - 1);
    }
  }

  /** The i-th code of length l, given the first one. */
  lemma CodeInLevel(w: nat, lens: seq<nat>, n: nat, first: nat)
    requires LensOK(w, lens) && n < |lens| && lens[n] > 0
    requires Shl(first, w - lens[n]) == Kraft(w, lens, lens[n] - 1)
    ensures Rev(lens[n], first + Count(lens[..n], lens[n])) == CodeOf(w, lens, n)
  {
    hide SymsOf, Canon, Count, Shl, Rev, Low, Shr;
    var l := lens[n];
    var i := Count(lens[..n], l);
    SymsPrefix(lens, n, l);
    WorkAtPos(w, lens, n);
    StartInLevel(w, lens, l, i);
    HuffOwnLength(w, lens, Pos(lens, n));
    ShlAdd(first, i, w - l);
    ShlShr(first + i, w - l);
  }

  lemma Pow2Fits(w: nat)
    requires w <= MAXBITS
    ensures Pow2(w) <= 32768
  {
    Pow2Monotone(w, MAXBITS);
    assert Pow2(15) == 32768;
  }

  /** Sixteen-bit arithmetic. */
  function Ush(x: nat): nat {
    x % 65536
  }

  /** The first code of each length. */
  method FirstCodes(w: nat, lens: seq<nat>, blCount: seq<nat>) returns (nextCode: seq<nat>)
    requires w < 16 && |blCount| == w + 1 && blCount[0] == 0
    requires forall l {:trigger blCount[l]} :: 1 <= l <= w ==> blCount[l] == Count(lens, l)
    requires NotOversubscribed(w, lens)
    ensures |nextCode| == w + 1
    ensures forall l {:trigger nextCode[l]} :: 1 <= l <= w ==>
              Shl(nextCode[l], w - l) == Kraft(w, lens, l - 1)
  {
    hide Shl, Count, Pow2, Kraft;
    nextCode := seq(w + 1, _ => 0);
    var code := 0;
    var bits := 1;
    while bits <= w
      invariant 1 <= bits <= w + 1 && |nextCode| == w + 1
      invariant forall l {:trigger nextCode[l]} :: 1 <= l < bits ==>
                  Shl(nextCode[l], w - l) == Kraft(w, lens, l - 1)
      invariant if bits == 1 then code == 0 else Shl(code, w - bits + 1) == Kraft(w, lens, bits - 2)
    {
      ghost var next := (code + blCount[bits - 1]) * 2;
      assert Shl(next, w - bits) == Kraft(w, lens, bits - 1) by {
        NextFirst(w, lens, bits, code, blCount[bits - 1]);
      }
      KraftMonotone(w, lens, bits - 1, w);
      QuotientBound(w, next, bits);
      Pow2Monotone(bits, w);
      Pow2Fits(w);
      code := Ush((code + blCount[bits - 1]) * 2);
      nextCode := nextCode[bits := code];
      bits := bits + 1;
    }
  }

  lemma NextFirst(w: nat, lens: seq<nat>, bits: nat, code: nat, count: nat)
    requires 1 <= bits <= w
    requires if bits == 1 then code == 0 && count == 0
             else count == Count(lens, bits - 1) && Shl(code, w - bits + 1) == Kraft(w, lens, bits - 2)
    ensures Shl((code + count) * 2, w - bits) == Kraft(w, lens, bits - 1)
  {
    hide Shl, Count;
    if bits > 1 {
      ShlDouble(code + count, w - bits);
      ShlAdd(code, count, w - bits + 1);
    } else {
      Shl0(w - bits);
    }
  }

  /** Assigns its canonical code to every symbol of non-zero length. */
  method GenCodes(w: nat, lens: seq<nat>, blCount: seq<nat>) returns (codes: seq<nat>)
    requires w < 16 && LensOK(w, lens) && NotOversubscribed(w, lens)
    requires |blCount| == w + 1 && blCount[0] == 0
    requires forall l {:trigger blCount[l]} :: 1 <= l <= w ==> blCount[l] == Count(lens, l)
    ensures |codes| == |lens|
    ensures forall n {:trigger codes[n]} :: 0 <= n < |lens| && lens[n] > 0 ==> codes[n] == CodeOf(w, lens, n)
  {
    hide Kraft, CodeOf, SymsOf, Canon, Shl, Rev, Pow2;
    var first := FirstCodes(w, lens, blCount);
    var nextCode := first;
    codes := seq(|lens|, _ => 0);
    assert lens[..0] == [];
    CountNone();
    for n := 0 to |lens|
      invariant |codes| == |lens| && |nextCode| == w + 1
      invariant forall l {:trigger nextCode[l]} :: 1 <= l <= w ==> nextCode[l] == first[l] + Count(lens[..n], l)
      invariant forall m {:trigger codes[m]} :: 0 <= m < n && lens[m] > 0 ==> codes[m] == CodeOf(w, lens, m)
    {
      CountStep(lens, n);
      var len := lens[n];
      if len != 0 {
        CodeInLevel(w, lens, n, first[len]);
        CodeFits(w, lens, n, first[len]);
        Pow2Fits(w);
        var r := BiReverse(nextCode[len], len);
        codes := codes[n := r];
        nextCode := nextCode[len := Ush(nextCode[len] + 1)];
      }
    }
  }

  lemma CountStep(lens: seq<nat>, n: nat)
    requires n < |lens|
    ensures forall l: nat :: Count(lens[..n + 1], l) == Count(lens[..n], l) + if lens[n] == l then 1 else 0
  {
    assert lens[..n + 1][..n] == lens[..n];
  }

  lemma CountNone()
    ensures forall l: nat :: Count([], l) == 0
  {
  }

  lemma KraftStep(w: nat, lens: seq<nat>, l: nat)
    requires 1 <= l <= w
    ensures Kraft(w, lens, l) == Kraft(w, lens, l - 1) + Shl(Count(lens, l), w - l)
  {
  }

  lemma CodeFits(w: nat, lens: seq<nat>, n: nat, first: nat)
    requires LensOK(w, lens) && NotOversubscribed(w, lens) && n < |lens| && lens[n] > 0
    requires Shl(first, w - lens[n]) == Kraft(w, lens, lens[n] - 1)
    ensures first + Count(lens[..n], lens[n]) + 1 <= Pow2(w)
  {
    var l := lens[n];
    hide SymsOf, Canon, Shl, Pow2, Count;
    SymsPrefix(lens, n, l);
    KraftMonotone(w, lens, l, w);
    KraftStep(w, lens, l);
    var i := Count(lens[..n], l) + 1;
    ShlAdd(first, i, w - l);
    ShlMonotone(Count(lens, l), i, w - l);
    QuotientBound(w, first + i, l);
    Pow2Monotone(l, w);
  }

  /** The codes the encoder sends are prefix-free. */
  lemma CodesPrefixFree(w: nat, lens: seq<nat>, m: nat, n: nat)
    requires LensOK(w, lens) && NotOversubscribed(w, lens)
    requires m < |lens| && n < |lens| && m != n && 0 < lens[m] <= lens[n]
    ensures Low(CodeOf(w, lens, n), lens[m]) != CodeOf(w, lens, m)
  {
    hide SymsOf, Canon, Start, Rev, Low, Shr, Pow2;
    WorkAtPos(w, lens, m);
    WorkAtPos(w, lens, n);
    var i, j := Pos(lens, m), Pos(lens, n);
    if i < j {
      PrefixFree(w, lens, i, j);
    } else {
      Ordered(w, lens, j, i);
      PrefixFree(w, lens, j, i);
      HuffOwnLength(w, lens, j);
      LowSmall(Huff(w, lens, j), lens[n]);
      HuffOwnLength(w, lens, i);
      LowSmall(Huff(w, lens, i), lens[m]);
    }
  }

  // ---------- the rule for the codes (section 3.2.2 of RFC 1951) ----------

  /** How many of the symbols before n have the length l. */
  function Earlier(lens: seq<nat>, n: nat, l: nat): nat
    requires n <= |lens|
  {
    if n == 0 then 0 else Earlier(lens, n - 1, l) + if lens[n - 1] == l then 1 else 0
  }

  /** The first code of length l: the shorter codes fill the code space from 0 on. */
  function NextCode(lens: seq<nat>, l: nat): nat {
    if l <= 1 then 0 else 2 * (NextCode(lens, l - 1) + Earlier(lens, |lens|, l - 1))
  }

  lemma {:induction false} EarlierIsCount(lens: seq<nat>, n: nat, l: nat)
    requires n <= |lens|
    ensures Earlier(lens, n, l) == Count(lens[..n], l)
  {
    if n == 0 {
      CountNone();
      assert lens[..0] == [];
    } else {
      EarlierIsCount(lens, n - 1, l);
      CountStep(lens, n - 1);
      assert Count(lens[..n - 1 + 1], l) == Count(lens[..n - 1], l) + if lens[n - 1] == l then 1 else 0;
    }
  }

  lemma {:induction false} NextCodeIsKraft(w: nat, lens: seq<nat>, l: nat)
    requires 1 <= l <= w
    ensures Shl(NextCode(lens, l), w - l) == Kraft(w, lens, l - 1)
  {
    hide Shl, Count, Earlier;
    if l == 1 {
      Shl0(w - 1);
    } else {
      NextCodeIsKraft(w, lens, l - 1);
      EarlierIsCount(lens, |lens|, l - 1);
      assert lens[..|lens|] == lens;
      NextFirst(w, lens, l, NextCode(lens, l - 1), Count(lens, l - 1));
    }
  }

  /** The code of symbol n, its first bit as the most significant one: the symbols of one
      length have consecutive codes in their order. */
  lemma CodeByRule(w: nat, lens: seq<nat>, n: nat)
    requires LensOK(w, lens) && n < |lens| && lens[n] > 0
    ensures CodeOf(w, lens, n) == Rev(lens[n], NextCode(lens, lens[n]) + Earlier(lens, n, lens[n]))
  {
    hide Shl, Count, Earlier, NextCode, Kraft, CodeOf, Rev;
    NextCodeIsKraft(w, lens, lens[n]);
    EarlierIsCount(lens, n, lens[n]);
    CodeInLevel(w, lens, n, NextCode(lens, lens[n]));
  }
}
