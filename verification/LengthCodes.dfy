/** The codes of match lengths and distances and their extra bits: the encoder's tables
    and the decoder's bases agree. */
module LengthCodes {
  import opened Bits
  import InflateTable

  const EXTRA_LBITS: seq<nat> := [0, 0, 0, 0, 0, 0, 0, 0, 1, 1, 1, 1, 2, 2, 2, 2, 3, 3, 3, 3, 4, 4, 4, 4, 5, 5, 5, 5, 0]
  const EXTRA_DBITS: seq<nat> := [0, 0, 0, 0, 1, 1, 2, 2, 3, 3, 4, 4, 5, 5, 6, 6, 7, 7, 8, 8, 9, 9, 10, 10, 11, 11, 12, 12, 13, 13]
  const POWERS: seq<nat> := [1, 2, 4, 8, 16, 32, 64, 128, 256, 512, 1024, 2048, 4096, 8192]

  lemma PowersAt(n: nat)
    requires n <= 13
    ensures POWERS[n] == Pow2(n)
  {
    if n > 0 {
      PowersAt(n - 1);
    }
  }

  lemma {:induction false} ShlPowers(x: nat, n: nat)
    requires n <= 13
    ensures Shl(x, n) == x * POWERS[n]
  {
    if n > 0 {
      ShlPowers(x, n - 1);
      Doubled(x, POWERS[n - 1]);
    }
  }

  lemma Doubled(x: nat, y: nat)
    ensures 2 * (x * y) == x * (2 * y)
  {
  }

  /** The extra bits and the first length minus 3 of a length code. */
  function LengthExtra(c: nat): (n: nat)
    requires c < 29
    ensures n <= 5
  {
    EXTRA_LBITS[c]
  }

  function LengthBase(c: nat): (n: nat)
    requires c < 29
    ensures n <= 255
  {
    InflateTable.LBASE[c] - 3
  }

  function DistExtra(c: nat): (n: nat)
    requires c < 30
    ensures n <= 13
  {
    EXTRA_DBITS[c]
  }

  function DistBase(c: nat): (n: nat)
    requires c < 30
    ensures n < 32768
  {
    InflateTable.DBASE[c] - 1
  }

  // ---------- the rule behind the tables (section 3.2.5 of RFC 1951) ----------

  /** From code 4 on, four codes have the same number of extra bits, and the next four one
      more; each code begins where the one before ends. Length 258 has a code of its own. */
  lemma LengthRule(c: nat)
    requires c < 29
    ensures c < 4 ==> LengthExtra(c) == 0 && LengthBase(c) == c
    ensures 4 <= c < 28 ==> LengthExtra(c) == c / 4 - 1 && LengthBase(c) == Shl(4 + c % 4, c / 4 - 1)
    ensures c == 28 ==> LengthExtra(c) == 0 && LengthBase(c) == 258 - 3
  {
    hide Shl;
    ListedLengths(c);
    if 4 <= c < 28 {
      ShlPowers(4 + c % 4, c / 4 - 1);
    }
  }

  lemma ListedLengths(c: nat)
    requires c < 29
    ensures c < 4 ==> LengthExtra(c) == 0 && LengthBase(c) == c
    ensures 4 <= c < 28 ==> LengthExtra(c) == c / 4 - 1 && LengthBase(c) == (4 + c % 4) * POWERS[c / 4 - 1]
    ensures c == 28 ==> LengthExtra(c) == 0 && LengthBase(c) == 255
  {
    if c < 10 {
      assert c == 0 || c == 1 || c == 2 || c == 3 || c == 4 || c == 5 || c == 6 || c == 7 || c == 8 || c == 9;
    } else if c < 20 {
      assert c == 10 || c == 11 || c == 12 || c == 13 || c == 14 || c == 15 || c == 16 || c == 17 || c == 18 || c == 19;
    } else {
      assert c == 20 || c == 21 || c == 22 || c == 23 || c == 24 || c == 25 || c == 26 || c == 27 || c == 28;
    }
  }

  /** The same for distances, by twos from code 2 on. */
  lemma DistRule(c: nat)
    requires c < 30
    ensures c < 2 ==> DistExtra(c) == 0 && DistBase(c) == c
    ensures 2 <= c ==> DistExtra(c) == c / 2 - 1 && DistBase(c) == Shl(2 + c % 2, c / 2 - 1)
  {
    hide Shl;
    ListedDists(c);
    if 2 <= c {
      ShlPowers(2 + c % 2, c / 2 - 1);
    }
  }

  lemma ListedDists(c: nat)
    requires c < 30
    ensures c < 2 ==> DistExtra(c) == 0 && DistBase(c) == c
    ensures 2 <= c ==> DistExtra(c) == c / 2 - 1 && DistBase(c) == (2 + c % 2) * POWERS[c / 2 - 1]
  {
    if c < 10 {
      assert c == 0 || c == 1 || c == 2 || c == 3 || c == 4 || c == 5 || c == 6 || c == 7 || c == 8 || c == 9;
    } else if c < 20 {
      assert c == 10 || c == 11 || c == 12 || c == 13 || c == 14 || c == 15 || c == 16 || c == 17 || c == 18 || c == 19;
    } else {
      assert c == 20 || c == 21 || c == 22 || c == 23 || c == 24 || c == 25 || c == 26 || c == 27 || c == 28 || c == 29;
    }
  }

  /** The entries of the decoder's tables. */
  lemma LengthLeaf(c: nat, bits: nat)
    requires c < 29
    ensures InflateTable.Leaf(InflateTable.LENS, 257 + c, bits) == InflateTable.Entry(16 + LengthExtra(c), bits, LengthBase(c) + 3)
  {
  }

  lemma DistLeaf(c: nat, bits: nat)
    requires c < 30
    ensures InflateTable.Leaf(InflateTable.DISTS, c, bits) == InflateTable.Entry(16 + DistExtra(c), bits, DistBase(c) + 1)
  {
  }

  /** Each code begins where the one before it ends. */
  lemma LengthNext(c: nat)
    requires c < 28
    ensures LengthBase(c) + POWERS[LengthExtra(c)] == if c == 27 then 256 else LengthBase(c + 1)
    ensures LengthBase(0) == 0
  {
    if c < 14 {
      LengthNext0(c);
    } else {
      LengthNext14(c);
    }
  }

  lemma LengthNext0(c: nat)
    requires c < 14
    ensures LengthBase(c) + POWERS[LengthExtra(c)] == LengthBase(c + 1)
  {
  }

  lemma LengthNext14(c: nat)
    requires 14 <= c < 28
    ensures LengthBase(c) + POWERS[LengthExtra(c)] == if c == 27 then 256 else LengthBase(c + 1)
  {
  }

  lemma DistNext(c: nat)
    requires c < 30
    ensures DistBase(c) + POWERS[DistExtra(c)] == if c == 29 then 32768 else DistBase(c + 1)
    ensures DistBase(0) == 0
  {
    if c < 8 {
      DistNext0(c);
    } else if c < 16 {
      DistNext8(c);
    } else if c < 23 {
      DistNext16(c);
    } else {
      DistNext23(c);
    }
  }

  lemma DistNext0(c: nat)
    requires c < 8
    ensures DistBase(c) + POWERS[DistExtra(c)] == DistBase(c + 1)
  {
  }

  lemma DistNext8(c: nat)
    requires 8 <= c < 16
    ensures DistBase(c) + POWERS[DistExtra(c)] == DistBase(c + 1)
  {
  }

  lemma DistNext16(c: nat)
    requires 16 <= c < 23
    ensures DistBase(c) + POWERS[DistExtra(c)] == DistBase(c + 1)
  {
  }

  lemma DistNext23(c: nat)
    requires 23 <= c < 30
    ensures DistBase(c) + POWERS[DistExtra(c)] == if c == 29 then 32768 else DistBase(c + 1)
  {
  }

  lemma DistLarge(c: nat)
    requires 16 <= c < 30
    ensures DistExtra(c) >= 7 && DistBase(c) % 128 == 0 && POWERS[DistExtra(c)] == 128 * POWERS[DistExtra(c) - 7]
    ensures DistBase(16) == 256
  {
  }

  /** Code c covers the length lc (less 3); the last length has a code of its own. */
  predicate CoversLength(c: nat, lc: nat) {
    if lc == 255 then c == 28 else InLength(c, lc)
  }

  predicate InLength(c: nat, lc: nat) {
    c < 28 && LengthBase(c) <= lc < LengthBase(c) + POWERS[LengthExtra(c)]
  }

  predicate CoversDist(c: nat, d: nat) {
    c < 30 && DistBase(c) <= d < DistBase(c) + POWERS[DistExtra(c)]
  }

  /** The encoder's table of length codes, and the first length of each code. */
  method InitLengths() returns (codes: seq<nat>, base: seq<nat>)
    ensures |codes| == 256 && |base| == 29
    ensures forall lc {:trigger codes[lc]} :: 0 <= lc < 256 ==> CoversLength(codes[lc], lc)
    ensures forall c {:trigger base[c]} :: 0 <= c < 28 ==> base[c] == LengthBase(c)
  {
    hide LengthBase, LengthExtra;
    codes := seq(256, _ => 0);
    base := seq(29, _ => 0);
    var length := 0;
    LengthNext(0);
    for code := 0 to 28
      invariant |codes| == 256 && |base| == 29 && length == if code == 28 then 256 else LengthBase(code)
      invariant forall l {:trigger codes[l]} :: 0 <= l < length && l < 256 ==> InLength(codes[l], l)
      invariant forall c {:trigger base[c]} :: 0 <= c < code ==> base[c] == LengthBase(c)
    {
      LengthNext(code);
      base := base[code := length];
      ghost var first := length;
      for n := 0 to POWERS[LengthExtra(code)]
        invariant |codes| == 256 && length == first + n <= 256
        invariant forall l {:trigger codes[l]} :: 0 <= l < length ==> InLength(codes[l], l)
      {
        codes := codes[length := code];
        length := length + 1;
      }
    }
    codes := codes[length - 1 := 28];
  }

  /** The encoder's table of distance codes: by distance up to 256, then by 128s. */
  method InitDists() returns (codes: seq<nat>, base: seq<nat>)
    ensures |codes| == 512 && |base| == 30
    ensures forall d {:trigger DistIndex(d)} :: 0 <= d < 32768 ==> CoversDist(codes[DistIndex(d)], d)
    ensures forall c {:trigger base[c]} :: 0 <= c < 30 ==> base[c] == DistBase(c)
  {
    hide DistBase, DistExtra, CoversDist;
    codes := seq(512, _ => 0);
    base := seq(30, _ => 0);
    var dist := 0;
    DistNext(0);
    DistLarge(16);
    for code := 0 to 16
      invariant |codes| == 512 && |base| == 30 && dist == DistBase(code) <= 256
      invariant forall d {:trigger codes[d]} :: 0 <= d < dist ==> CoversDist(codes[d], d)
      invariant forall c {:trigger base[c]} :: 0 <= c < code ==> base[c] == DistBase(c)
    {
      DistNext(code);
      SmallDists(code);
      base := base[code := dist];
      ghost var first := dist;
      for n := 0 to POWERS[DistExtra(code)]
        invariant |codes| == 512 && dist == first + n <= 256
        invariant forall d {:trigger codes[d]} :: 0 <= d < dist ==> CoversDist(codes[d], d)
      {
        InDist(code, dist);
        codes := codes[dist := code];
        dist := dist + 1;
      }
    }
    ghost var small := codes;
    dist := dist / 128;
    for code := 16 to 30
      invariant |codes| == 512 && |base| == 30 && codes[..256] == small[..256]
      invariant dist * 128 == (if code == 30 then 32768 else DistBase(code)) && 2 <= dist <= 256
      invariant forall d {:trigger codes[256 + d]} :: 2 <= d < dist ==> CoversGroup(codes[256 + d], d)
      invariant forall c {:trigger base[c]} :: 0 <= c < code ==> base[c] == DistBase(c)
    {
      DistNext(code);
      DistLarge(code);
      LargeDists(code);
      base := base[code := dist * 128];
      ghost var first := dist;
      for n := 0 to POWERS[DistExtra(code) - 7]
        invariant |codes| == 512 && dist == first + n && dist <= 256 && codes[..256] == small[..256]
        invariant forall d {:trigger codes[256 + d]} :: 2 <= d < dist ==> CoversGroup(codes[256 + d], d)
      {
        InGroup(code, dist);
        codes := codes[256 + dist := code];
        dist := dist + 1;
      }
    }
    forall d | 0 <= d < 32768 ensures CoversDist(codes[DistIndex(d)], d) {
      if d < 256 {
        assert codes[d] == codes[..256][d] && small[d] == small[..256][d];
      } else {
        assert CoversGroup(codes[256 + d / 128], d / 128);
        GroupCovers(codes[256 + d / 128], d);
      }
    }
  }

  /** d_code: where to look for a distance (less 1). */
  function DistIndex(d: nat): (i: nat)
    requires d < 32768
    ensures i < 512
  {
    if d < 256 then d else 256 + d / 128
  }

  /** Code c covers all distances d * 128 .. d * 128 + 127. */
  predicate CoversGroup(c: nat, d: nat) {
    16 <= c < 30 && DistBase(c) <= d * 128 && d * 128 + 128 <= DistBase(c) + POWERS[DistExtra(c)]
  }

  lemma SmallDists(c: nat)
    requires c < 16
    ensures DistBase(c) + POWERS[DistExtra(c)] <= 256
  {
  }

  lemma LargeDists(c: nat)
    requires 16 <= c < 30
    ensures DistBase(c) + POWERS[DistExtra(c)] <= 32768
  {
  }

  lemma InDist(c: nat, d: nat)
    requires c < 30 && DistBase(c) <= d < DistBase(c) + POWERS[DistExtra(c)]
    ensures CoversDist(c, d)
  {
  }

  lemma InGroup(c: nat, d: nat)
    requires 16 <= c < 30 && DistExtra(c) >= 7 && POWERS[DistExtra(c)] == 128 * POWERS[DistExtra(c) - 7]
    requires DistBase(c) <= d * 128 && d * 128 < DistBase(c) + POWERS[DistExtra(c)] && DistBase(c) % 128 == 0
    ensures CoversGroup(c, d)
  {
    hide DistBase, DistExtra;
  }

  lemma GroupCovers(c: nat, d: nat)
    requires CoversGroup(c, d / 128)
    ensures CoversDist(c, d)
  {
    hide DistBase, DistExtra;
  }
}
