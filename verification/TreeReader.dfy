/** Reading the header of a block with dynamic trees: the TABLE, LENLENS and CODELENS
    states of inflate, and the round trip with the encoder. */
module TreeReader {
  import opened Bits
  import opened BitStream
  import opened BitInput
  import opened InflateWindow
  import opened InflateCalls
  import History
  import opened CodeLengths
  import opened Wrappers
  import opened TreeSender
  import opened CodeLensDecoder
  import opened DynamicTrees
  import opened Huffman
  import InflateTable
  import BlockDecoder

  /** What a header of nl, nd and nb entries is read as. */
  lemma HeaderFields(nl: nat, nd: nat, nb: nat, bl: seq<nat>, rest: nat, v: nat)
    requires 257 <= nl <= 286 && 1 <= nd <= 30 && 4 <= nb <= 19 && |bl| == 19 && v == HeaderBits(nl, nd, nb, bl, rest)
    ensures var v1 := Shr(v, 5); var v2 := Shr(v1, 5);
            Low(v, 5) == nl - 257 && Low(v1, 5) == nd - 1 && Low(v2, 4) == nb - 4 && Shr(v2, 4) == OrderBits(bl, nb, 0, rest)
  {
    hide Shl, Shr, Low, OrderBits, Pow2;
    FieldSizes();
    var o := OrderBits(bl, nb, 0, rest);
    LowAddShl(nb - 4, o, 4);
    LowAddShl(nd - 1, nb - 4 + Shl(o, 4), 5);
    LowAddShl(nl - 257, nd - 1 + Shl(nb - 4 + Shl(o, 4), 5), 5);
  }

  /** What is read for the symbol at place r of the order. */
  lemma {:induction false} OrderRead(bl: seq<nat>, nb: nat, r: nat, i: nat, rest: nat)
    requires |bl| == 19 && r <= i <= nb <= 19 && LensOK(7, bl)
    ensures Shr(OrderBits(bl, nb, r, rest), 3 * (i - r)) == OrderBits(bl, nb, i, rest)
    ensures i < nb ==> Low(OrderBits(bl, nb, i, rest), 3) == bl[OrderAt(i)]
    ensures i == nb ==> OrderBits(bl, nb, i, rest) == rest
    decreases i - r
  {
    hide Shl, Shr, Low, Pow2, OrderAt;
    FieldSizes();
    var v := OrderBits(bl, nb, r, rest);
    if r == i {
      ShrZero(v);
      if i < nb {
        LowAddShl(bl[OrderAt(i)], OrderBits(bl, nb, i + 1, rest), 3);
      }
    } else {
      OrderRead(bl, nb, r + 1, i, rest);
      LowAddShl(bl[OrderAt(r)], OrderBits(bl, nb, r + 1, rest), 3);
      ShrShr(v, 3, 3 * (i - r - 1));
    }
  }

  lemma ShrZero(x: nat)
    ensures Shr(x, 0) == x
  {
  }

  /** The next bits are nb lengths of the code-length code, in their order, and then rest. */
  ghost predicate OrderSent(v: nat, nb: nat, bl: seq<nat>, rest: nat) {
    && |bl| == 19 && LensOK(7, bl) && nb <= 19 && v == OrderBits(bl, nb, 0, rest)
    && forall i {:trigger OrderAt(i)} :: nb <= i < 19 ==> bl[OrderAt(i)] == 0
  }

  /** The symbols at the places before have have the three bits of v for their places, or
      0 from place nb on. */
  ghost predicate LensRead(v: nat, nb: nat, have: nat, lens: seq<nat>) {
    |lens| == 19 && forall s {:trigger lens[s]} :: 0 <= s < 19 && Rank(s) < have ==>
      lens[s] == if Rank(s) < nb then Low(Shr(v, 3 * Rank(s)), 3) else 0
  }

  lemma LensReadStep(v: nat, nb: nat, have: nat, lens: seq<nat>, x: nat)
    requires LensRead(v, nb, have, lens) && have < 19 && x == if have < nb then Low(Shr(v, 3 * have), 3) else 0
    ensures LensRead(v, nb, have + 1, lens[OrderAt(have) := x])
  {
    hide Low, Shr, OrderAt, Rank;
    var lens' := lens[OrderAt(have) := x];
    forall s | 0 <= s < 19 && Rank(s) < have + 1 ensures lens'[s] == if Rank(s) < nb then Low(Shr(v, 3 * Rank(s)), 3) else 0 {
      RankOfOrder(have);
      if s != OrderAt(have) {
        assert OrderAt(Rank(s)) == s;
      }
    }
  }

  lemma LensReadStart(v: nat, nb: nat, lens: seq<nat>)
    requires |lens| == 19
    ensures LensRead(v, nb, 0, lens)
  {
  }

  lemma LensReadAll(v: nat, nb: nat, lens: seq<nat>)
    requires LensRead(v, nb, 19, lens)
    ensures LensOK(7, lens)
  {
    hide Shr, Rank;
    forall s | 0 <= s < 19 ensures lens[s] <= 7 {
      ThreeBits(Shr(v, 3 * Rank(s)));
    }
  }

  /** What was sent is read. */
  lemma SentIsRead(v: nat, nb: nat, bl: seq<nat>, rest: nat, lens: seq<nat>)
    requires OrderSent(v, nb, bl, rest) && LensRead(v, nb, 19, lens)
    ensures lens == bl && Shr(v, 3 * nb) == rest
  {
    hide Low, Shr, OrderAt, Rank, OrderBits;
    OrderRead(bl, nb, 0, nb, rest);
    forall s | 0 <= s < 19 ensures lens[s] == bl[s] {
      var r := Rank(s);
      assert OrderAt(r) == s;
      if r < nb {
        OrderRead(bl, nb, 0, r, rest);
      }
    }
  }

  /** Reads nb code-length code lengths in their order, over calls with any amounts of input,
      whatever was in the array before; the others are 0. */
  method LenLens(rd: BitReader, z: Inflater, calls: seq<Call>, j0: nat, nb: nat, lens0: seq<nat>)
    returns (status: Status, lens: seq<nat>, j: nat)
    requires rd.Valid() && z.Valid() && rd.bits < 8 && 4 <= nb <= 19 && Given(rd, z, calls, j0) && |lens0| == 19
    modifies rd, z, z.window
    ensures rd.Valid() && rd.bits <= 24 && z.Valid() && (z.out == old(z.out) || fresh(z.out)) && j0 <= j && Given(rd, z, calls, j)
    ensures z.Output() == old(z.Output())
    ensures status == Done ==> LensRead(old(rd.Value()), nb, 19, lens) && LensOK(7, lens)
    ensures status == Done ==> rd.bits < 8 && rd.Value() == Shr(old(rd.Value()), 3 * nb) && rd.Left() + 3 * nb == old(rd.Left())
    ensures status == NeedInput ==> j == |calls| && rd.pos == rd.limit && (old(rd.Left()) >= 3 * nb ==> rd.limit < |rd.input|)
    ensures status != Bad
  {
    hide Low, Shr, Shl, Stream, Pow2, OrderAt, Listed, LensRead, History.WindowHolds;
    ghost var v := rd.Value();
    lens, j := lens0, j0;
    var have := 0;
    LensReadStart(v, nb, lens);
    ShrZero(v);
    while have < nb
      invariant have <= nb && rd.Valid() && rd.bits < 8 && z.Valid() && (z.out == old(z.out) || fresh(z.out)) && j0 <= j && Given(rd, z, calls, j)
      invariant |lens| == 19 && z.Output() == old(z.Output()) && LensRead(v, nb, have, lens)
      invariant rd.Left() + 3 * have == old(rd.Left()) && rd.Value() == Shr(v, 3 * have)
    {
      ShrShr(v, 3 * have, 3);
      var ok, x;
      ok, x, j := FieldOverCalls(rd, z, calls, j, 3);
      if !ok {
        status := NeedInput;
        return;
      }
      LensReadStep(v, nb, have, lens, x);
      OrderListed(have);
      lens := lens[Listed(have) := x];
      have := have + 1;
    }
    lens := RestZero(lens, nb, v);
    LensReadAll(v, nb, lens);
    status := Done;
  }

  /** The lengths that are not sent are 0. */
  method RestZero(lens0: seq<nat>, nb: nat, ghost v: nat) returns (lens: seq<nat>)
    requires nb <= 19 && LensRead(v, nb, nb, lens0)
    ensures LensRead(v, nb, 19, lens)
  {
    hide OrderAt, Listed, Low, Shr, Rank;
    lens := lens0;
    var have := nb;
    while have < 19
      invariant nb <= have <= 19 && |lens| == 19 && LensRead(v, nb, have, lens)
    {
      LensReadStep(v, nb, have, lens, 0);
      OrderListed(have);
      lens := lens[Listed(have) := 0];
      have := have + 1;
    }
  }

  lemma ThreeBits(x: nat)
    ensures Low(x, 3) <= 7
  {
    FieldSizes();
  }

  lemma CompleteAccepted(w: nat, bl: seq<nat>)
    requires w >= 1 && LensOK(w, bl) && Kraft(w, bl, w) == Pow2(w)
    ensures InflateTable.Acceptable(w, bl, InflateTable.CODES)
  {
    hide Kraft, Pow2, InflateTable.Acceptable;
    InflateTable.RejectedIff(w, bl, InflateTable.CODES);
  }

  lemma LensReadSize(v: nat, nb: nat, lens: seq<nat>)
    requires LensRead(v, nb, 19, lens)
    ensures |lens| == 19
  {
  }

  lemma SevenIsEnough(w: nat, bl: seq<nat>)
    requires LensOK(7, bl) && 7 <= w
    ensures LensOK(w, bl) && InflateTable.MaxLen(bl) <= 7
  {
    InflateTable.MaxLenBound(7, bl);
  }

  /** Reads the numbers of code lengths: the TABLE state. */
  method ReadCounts(rd: BitReader, z: Inflater, calls: seq<Call>, j0: nat) returns (ok: bool, nlen: nat, ndist: nat, ncode: nat, j: nat)
    requires rd.Valid() && z.Valid() && rd.bits < 8 && Given(rd, z, calls, j0)
    modifies rd, z, z.window
    ensures rd.Valid() && rd.bits <= 24 && z.Valid() && (z.out == old(z.out) || fresh(z.out)) && j0 <= j && Given(rd, z, calls, j)
    ensures z.Output() == old(z.Output())
    ensures ok ==> && rd.bits < 8 && rd.Left() + 14 == old(rd.Left()) && 4 <= ncode <= 19
                   && var v := old(rd.Value()); var v1 := Shr(v, 5); var v2 := Shr(v1, 5);
                      nlen == Low(v, 5) + 257 && ndist == Low(v1, 5) + 1 && ncode == Low(v2, 4) + 4 && rd.Value() == Shr(v2, 4)
    ensures !ok ==> j == |calls| && rd.pos == rd.limit && (old(rd.Left()) >= 14 ==> rd.limit < |rd.input|)
  {
    hide Low, Shr, Shl, Stream, Pow2, History.WindowHolds;
    nlen, ndist, ncode := 0, 0, 0;
    ok, j := NeedOverCalls(rd, z, calls, j0, 14);
    if ok {
      var x := rd.Peek(5);
      nlen := x + 257;
      rd.DropBits(5);
      x := rd.Peek(5);
      ndist := x + 1;
      rd.DropBits(5);
      FourBits(rd.Value());
      x := rd.Peek(4);
      ncode := x + 4;
      rd.DropBits(4);
    }
  }

  /** Reads the numbers of lengths and the code-length code, and builds its table. */
  method ReadCode(rd: BitReader, z: Inflater, calls: seq<Call>, j0: nat, w: nat, ghost good: bool, ghost nl: nat, ghost nd: nat, ghost nb: nat,
                  ghost bl: seq<nat>, ghost next: nat)
    returns (status: Status, nlen: nat, ndist: nat, lens: seq<nat>, table: map<nat, InflateTable.Entry>, root: nat, j: nat)
    requires rd.Valid() && z.Valid() && rd.bits < 8 && 7 <= w <= 15 && Given(rd, z, calls, j0)
    requires good ==> CountsSent(w, rd.Value(), rd.Left(), nl, nd, nb, bl, next)
    modifies rd, z, z.window
    ensures rd.Valid() && rd.bits <= 24 && z.Valid() && (z.out == old(z.out) || fresh(z.out)) && j0 <= j && Given(rd, z, calls, j)
    ensures z.Output() == old(z.Output())
    ensures status == Done ==> 257 <= nlen <= 286 && 1 <= ndist <= 30 && CodesTable(w, lens, table, root) && rd.bits < 8 && rd.Left() <= old(rd.Left())
    ensures status == NeedInput ==> j == |calls| && rd.pos == rd.limit
    ensures good ==> && status != Bad && (status == NeedInput ==> rd.limit < |rd.input|)
                     && (status == Done ==> && nlen == nl && ndist == nd && lens == bl && rd.Value() == next
                                            && rd.Left() + 14 + 3 * nb == old(rd.Left()))
  {
    hide Low, Shr, Shl, Stream, Pow2, Kraft, BlockDecoder.TableFor, InflateTable.RootShape, History.WindowHolds, OrderSent, CountsSent, Given, LensRead, InflateTable.Acceptable;
    lens, table, root := [], map[], 0;
    if good {
      CountsAre(w, rd.Value(), rd.Left(), nl, nd, nb, bl, next);
    }
    var ok, ncode;
    ok, nlen, ndist, ncode, j := ReadCounts(rd, z, calls, j0);
    if !ok {
      status := NeedInput;
      return;
    }
    if nlen > 286 || ndist > 30 {
      status := Bad;
      return;
    }
    ghost var v := rd.Value();
    status, lens, j := LenLens(rd, z, calls, j, ncode, Repeat(0, 19));
    if status != Done {
      return;
    }
    if good {
      SentIsRead(v, nb, bl, next, lens);
      CompleteAccepted(w, bl);
    }
    LensReadSize(v, ncode, lens);
    SevenIsEnough(w, lens);
    var ret, used;
    ret, table, root, used := BlockDecoder.BuildTable(w, InflateTable.CODES, lens, 7);
    if ret != 0 {
      status := Bad;
    }
  }

  /** The next bits are the counts and the lengths of the code-length code, and then next. */
  ghost predicate CountsSent(w: nat, v: nat, left: nat, nl: nat, nd: nat, nb: nat, bl: seq<nat>, next: nat) {
    && 257 <= nl <= 286 && 1 <= nd <= 30 && 4 <= nb <= 19 && |bl| == 19 && LensOK(7, bl) && LensOK(w, bl) && Kraft(w, bl, w) == Pow2(w)
    && (forall i {:trigger OrderAt(i)} :: nb <= i < 19 ==> bl[OrderAt(i)] == 0)
    && v == HeaderBits(nl, nd, nb, bl, next) && 14 + 3 * nb <= left
  }

  lemma CountsAre(w: nat, v: nat, left: nat, nl: nat, nd: nat, nb: nat, bl: seq<nat>, next: nat)
    requires CountsSent(w, v, left, nl, nd, nb, bl, next)
    ensures 257 <= nl <= 286 && 1 <= nd <= 30 && 14 + 3 * nb <= left && LensOK(w, bl) && Kraft(w, bl, w) == Pow2(w)
    ensures var v1 := Shr(v, 5); var v2 := Shr(v1, 5);
            && Low(v, 5) + 257 == nl && Low(v1, 5) + 1 == nd && Low(v2, 4) + 4 == nb
            && OrderSent(Shr(v2, 4), nb, bl, next)
  {
    hide Low, Shr, HeaderBits, Kraft, Pow2, OrderAt, OrderBits;
    HeaderFields(nl, nd, nb, bl, next, v);
    OrderIsSent(nb, bl, next);
  }

  /** Reads the two tables of code lengths at the start of a block with dynamic trees, over
      calls with any amounts of input. */
  method ReadTrees(rd: BitReader, z: Inflater, calls: seq<Call>, j0: nat, w: nat, ghost llens: seq<nat>, ghost dlens: seq<nat>, ghost nb: nat,
                   ghost bl: seq<nat>, ghost codes: seq<nat>, ghost items: seq<Item>, ghost rest: nat, ghost after: nat)
    returns (status: Status, nlen: nat, ndist: nat, lens: seq<nat>, j: nat)
    requires rd.Valid() && z.Valid() && rd.bits < 8 && 7 <= w <= 15 && Given(rd, z, calls, j0)
    modifies rd, z, z.window
    ensures rd.Valid() && rd.bits <= 24 && z.Valid() && (z.out == old(z.out) || fresh(z.out)) && j0 <= j && Given(rd, z, calls, j)
    ensures z.Output() == old(z.Output()) && (status == Done ==> rd.Left() <= old(rd.Left()))
    ensures status == Done ==> 257 <= nlen <= 286 && 1 <= ndist <= 30 && |lens| == nlen + ndist && LensOK(15, lens) && rd.bits < 8
    ensures status == NeedInput ==> j == |calls| && rd.pos == rd.limit
    // a header for two tables, whatever symbols their lengths are sent as, is read as those tables, once all input is given
    ensures HeaderFor(w, llens, dlens, nb, bl, codes, items, rest, after, old(rd.Value()), old(rd.Left())) ==>
              && status != Bad && (status == NeedInput ==> rd.limit < |rd.input|)
              && (status == Done ==> && nlen == |llens| && ndist == |dlens| && lens == llens + dlens
                                     && rd.Value() == rest && after <= rd.Left())
  {
    hide Low, Shr, Shl, Stream, Pow2, HeaderFor, CountsSent, CodesTable, Expected, History.WindowHolds, ItemsBits, Brought;
    ghost var v, a := rd.Value(), rd.Left();
    ghost var good := HeaderFor(w, llens, dlens, nb, bl, codes, items, rest, after, v, a);
    ghost var next := rest;
    if good {
      HeaderUnfolds(w, llens, dlens, nb, bl, codes, items, rest, after, v, a);
      next := ItemsBits(bl, codes, items, rest);
    }
    var table, root;
    status, nlen, ndist, lens, table, root, j := ReadCode(rd, z, calls, j0, w, good, |llens|, |dlens|, nb, bl, next);
    if status != Done {
      return;
    }
    status, lens, j := CodeLens(rd, z, calls, j, table, root, nlen + ndist, w, lens, codes, items, rest, after, llens + dlens);
  }

  lemma OrderIsSent(nb: nat, bl: seq<nat>, rest: nat)
    requires |bl| == 19 && LensOK(7, bl) && nb <= 19 && forall i {:trigger OrderAt(i)} :: nb <= i < 19 ==> bl[OrderAt(i)] == 0
    ensures OrderSent(OrderBits(bl, nb, 0, rest), nb, bl, rest)
  {
  }

  lemma FourBits(x: nat)
    ensures Low(x, 4) <= 15
  {
    FieldSizes();
  }

  /** The next bits are a header for two tables, whose lengths are sent as the given symbols,
      followed by rest, of which there are at least after bits. */
  ghost predicate HeaderFor(w: nat, llens: seq<nat>, dlens: seq<nat>, nb: nat, bl: seq<nat>, codes: seq<nat>, items: seq<Item>, rest: nat, after: nat,
                            value: nat, avail: nat) {
    && 257 <= |llens| <= 286 && 1 <= |dlens| <= 30 && 4 <= nb <= 19
    && BlTree(w, bl, codes, items) && ExpandAll([], items) == Some(llens + dlens)
    && (forall i {:trigger OrderAt(i)} :: nb <= i < 19 ==> bl[OrderAt(i)] == 0)
    && value == HeaderBits(|llens|, |dlens|, nb, bl, ItemsBits(bl, codes, items, rest))
    && 14 + 3 * nb + ItemsLength(bl, items) + after <= avail
  }

  lemma HeaderUnfolds(w: nat, llens: seq<nat>, dlens: seq<nat>, nb: nat, bl: seq<nat>, codes: seq<nat>, items: seq<Item>, rest: nat, after: nat,
                      value: nat, avail: nat)
    requires HeaderFor(w, llens, dlens, nb, bl, codes, items, rest, after, value, avail)
    ensures |bl| == |codes| == 19 && ItemsOK(items) && 14 + 3 * nb <= avail
    ensures CountsSent(w, value, avail, |llens|, |dlens|, nb, bl, ItemsBits(bl, codes, items, rest))
    ensures Expected(w, bl, codes, items, rest, after, ItemsBits(bl, codes, items, rest), avail - 14 - 3 * nb, [], llens + dlens)
  {
    hide ExpandAll, ItemsBits, ItemsLength, HeaderBits, CodeOf, Kraft, Pow2, OrderAt;
  }

  /** Sends both tables of code lengths and reads them back from the bytes, given to any
      number of calls piece by piece. */
  method TreesRoundTrip(w: nat, llens: seq<nat>, dlens: seq<nat>, wbits: nat, calls: seq<Call>)
    returns (status: Status, nlen: nat, ndist: nat, lens: seq<nat>, rd: BitReader)
    requires 7 <= w <= 15 && 257 <= |llens| <= 286 && 1 <= |dlens| <= 30 && LengthsOK(llens) && LengthsOK(dlens)
    requires exists k :: 0 <= k < |llens| && llens[k] != 0
    ensures status == Done || (status == NeedInput && Brought(calls, |calls|) < |rd.input|)
    ensures status == Done ==> nlen == |llens| && ndist == |dlens| && lens == llens + dlens
  {
    hide Low, Shr, Shl, Stream, Pow2, OrderAt, HeaderBits, HeaderFor, TreeItems, BlTree, SentNumber, ItemsBits, ItemsLength, OnlyRepeats, History.WindowHolds;
    var bl, codes, last := BuildBlTree(w, llens, dlens);
    ghost var k :| 0 <= k < |llens| && llens[k] != 0;
    PlainSent(llens, dlens, k);
    ghost var items := TreeItems(llens) + TreeItems(dlens);
    BlTreeFacts(w, bl, codes, items);
    var out := new BitWriter();
    SendAllTrees(out, llens, dlens, bl, codes, last + 1);
    ghost var v, n := out.Value(), out.Length();
    HeaderSent(w, llens, dlens, last + 1, bl, codes, v, n);
    out.BiWindup();
    rd := new BitReader(out.pending);
    HeaderKept(w, llens, dlens, last + 1, bl, codes, items, v, n, rd.Left());
    var z := new Inflater(wbits, 0);
    var j;
    status, nlen, ndist, lens, j := ReadTrees(rd, z, calls, 0, w, llens, dlens, last + 1, bl, codes, items, 0, 0);
  }

  lemma BlTreeFacts(w: nat, bl: seq<nat>, codes: seq<nat>, items: seq<Item>)
    requires BlTree(w, bl, codes, items)
    ensures Codes(bl, codes) && LensOK(7, bl) && |bl| == |codes| == 19 && ItemsOK(items)
  {
  }

  lemma HeaderSent(w: nat, llens: seq<nat>, dlens: seq<nat>, nb: nat, bl: seq<nat>, codes: seq<nat>, v: nat, n: nat)
    requires 257 <= |llens| <= 286 && 1 <= |dlens| <= 30 && 4 <= nb <= 19 && LengthsOK(llens) && LengthsOK(dlens)
    requires BlTree(w, bl, codes, TreeItems(llens) + TreeItems(dlens))
    requires forall i {:trigger OrderAt(i)} :: nb <= i < 19 ==> bl[OrderAt(i)] == 0
    requires var items := TreeItems(llens) + TreeItems(dlens);
             SentNumber(0, 0, HeaderBits(|llens|, |dlens|, nb, bl, ItemsBits(bl, codes, items, 0)),
                        14 + 3 * nb + ItemsLength(bl, items), v, n)
    ensures HeaderFor(w, llens, dlens, nb, bl, codes, TreeItems(llens) + TreeItems(dlens), 0, 0, v, n)
  {
    hide ExpandAll, TreeItems, HeaderBits, ItemsBits, ItemsLength, OrderAt, BlTree, Shl;
    var items := TreeItems(llens) + TreeItems(dlens);
    BlTreeFacts(w, bl, codes, items);
    BothTreesExpand(llens, dlens);
    ShlNone(HeaderBits(|llens|, |dlens|, nb, bl, ItemsBits(bl, codes, items, 0)));
  }

  lemma HeaderKept(w: nat, llens: seq<nat>, dlens: seq<nat>, nb: nat, bl: seq<nat>, codes: seq<nat>, items: seq<Item>, v: nat, n: nat, n': nat)
    requires HeaderFor(w, llens, dlens, nb, bl, codes, items, 0, 0, v, n) && n <= n'
    ensures HeaderFor(w, llens, dlens, nb, bl, codes, items, 0, 0, v, n')
  {
    hide ExpandAll, HeaderBits, ItemsBits, ItemsLength, OrderAt, BlTree, Shl;
  }
}
