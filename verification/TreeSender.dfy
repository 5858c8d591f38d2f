/** Sending a table of code lengths as bits, with the codes of the code-length tree. */
module TreeSender {
  import opened Bits
  import opened BitStream
  import opened CodeLengths

  /** The codes of an alphabet and their lengths in bits. */
  ghost predicate Codes(bl: seq<nat>, codes: seq<nat>) {
    |bl| == |codes| == 19 && forall s {:trigger bl[s]} {:trigger codes[s]} :: 0 <= s < 19 ==> bl[s] <= 15 && codes[s] < Pow2(bl[s])
  }

  /** The bits of one symbol and its extra bits, followed by rest. */
  ghost function ItemBits(bl: seq<nat>, codes: seq<nat>, it: Item, rest: nat): nat
    requires |bl| == |codes| == 19 && it.sym < 19
  {
    codes[it.sym] + Shl(it.extra + Shl(rest, ExtraBits(it.sym)), bl[it.sym])
  }

  ghost function ItemLength(bl: seq<nat>, it: Item): nat
    requires |bl| == 19 && it.sym < 19
  {
    bl[it.sym] + ExtraBits(it.sym)
  }

  ghost predicate ItemsOK(items: seq<Item>) {
    forall i {:trigger items[i]} :: 0 <= i < |items| ==> ItemOK(items[i])
  }

  /** The bits of a sequence of symbols, followed by rest. */
  ghost function ItemsBits(bl: seq<nat>, codes: seq<nat>, items: seq<Item>, rest: nat): nat
    requires |bl| == |codes| == 19 && ItemsOK(items)
    decreases |items|
  {
    if items == [] then rest else ItemBits(bl, codes, items[0], ItemsBits(bl, codes, items[1..], rest))
  }

  ghost function ItemsLength(bl: seq<nat>, items: seq<Item>): nat
    requires |bl| == 19 && ItemsOK(items)
    decreases |items|
  {
    if items == [] then 0 else ItemLength(bl, items[0]) + ItemsLength(bl, items[1..])
  }

  lemma ItemRest(bl: seq<nat>, codes: seq<nat>, it: Item, rest: nat)
    requires |bl| == |codes| == 19 && it.sym < 19
    ensures ItemBits(bl, codes, it, rest) == ItemBits(bl, codes, it, 0) + Shl(rest, ItemLength(bl, it))
  {
    hide Shl;
    var e, l := ExtraBits(it.sym), bl[it.sym];
    Shl0(e);
    ShlAdd(it.extra, Shl(rest, e), l);
    ShlShl(rest, e, l);
  }

  /** The rest comes after the bits of the symbols. */
  lemma {:induction false} ItemsRest(bl: seq<nat>, codes: seq<nat>, items: seq<Item>, rest: nat)
    requires |bl| == |codes| == 19 && ItemsOK(items)
    ensures ItemsBits(bl, codes, items, rest) == ItemsBits(bl, codes, items, 0) + Shl(rest, ItemsLength(bl, items))
    decreases |items|
  {
    hide Shl, ItemBits, ItemLength;
    if items == [] {
      ShlNone(rest);
    } else {
      var tail := items[1..];
      ItemsRest(bl, codes, tail, rest);
      ItemRest(bl, codes, items[0], ItemsBits(bl, codes, tail, rest));
      ItemRest(bl, codes, items[0], ItemsBits(bl, codes, tail, 0));
      ShlAdd(ItemsBits(bl, codes, tail, 0), Shl(rest, ItemsLength(bl, tail)), ItemLength(bl, items[0]));
      ShlShl(rest, ItemsLength(bl, tail), ItemLength(bl, items[0]));
    }
  }

  lemma {:induction false} ItemsAppend(bl: seq<nat>, codes: seq<nat>, a: seq<Item>, b: seq<Item>, rest: nat)
    requires |bl| == |codes| == 19 && ItemsOK(a) && ItemsOK(b)
    ensures ItemsOK(a + b) && ItemsBits(bl, codes, a + b, rest) == ItemsBits(bl, codes, a, ItemsBits(bl, codes, b, rest))
    ensures ItemsLength(bl, a + b) == ItemsLength(bl, a) + ItemsLength(bl, b)
    decreases |a|
  {
    hide ItemBits, ItemLength;
    if a == [] {
      assert a + b == b;
    } else {
      assert (a + b)[1..] == a[1..] + b;
      ItemsAppend(bl, codes, a[1..], b, rest);
    }
  }

  /** The writer has sent the symbols after the value v of length n. */
  ghost predicate SentAfter(v: nat, n: nat, bl: seq<nat>, codes: seq<nat>, items: seq<Item>, value: nat, length: nat) {
    && |bl| == |codes| == 19 && ItemsOK(items)
    && value == v + Shl(ItemsBits(bl, codes, items, 0), n) && length == n + ItemsLength(bl, items)
  }

  lemma SentNone(v: nat, n: nat, bl: seq<nat>, codes: seq<nat>)
    requires |bl| == |codes| == 19
    ensures SentAfter(v, n, bl, codes, [], v, n)
  {
    Shl0(n);
  }

  /** Sending after sending. */
  lemma SentMore(v: nat, n: nat, bl: seq<nat>, codes: seq<nat>, a: seq<Item>, value: nat, length: nat,
                 b: seq<Item>, value': nat, length': nat)
    requires SentAfter(v, n, bl, codes, a, value, length) && SentAfter(value, length, bl, codes, b, value', length')
    ensures SentAfter(v, n, bl, codes, a + b, value', length')
  {
    hide Shl, ItemsBits, ItemsLength;
    ItemsAppend(bl, codes, a, b, 0);
    ItemsRest(bl, codes, a, ItemsBits(bl, codes, b, 0));
    ShlAdd(ItemsBits(bl, codes, a, 0), Shl(ItemsBits(bl, codes, b, 0), ItemsLength(bl, a)), n);
    ShlShl(ItemsBits(bl, codes, b, 0), ItemsLength(bl, a), n);
  }

  lemma SentOne(v: nat, n: nat, bl: seq<nat>, codes: seq<nat>, it: Item)
    requires |bl| == |codes| == 19 && ItemOK(it)
    ensures SentAfter(v, n, bl, codes, [it],
                      v + Shl(codes[it.sym], n) + Shl(it.extra, n + bl[it.sym]), n + bl[it.sym] + ExtraBits(it.sym))
  {
    hide Shl;
    assert [it][1..] == [];
    assert ItemsBits(bl, codes, [], 0) == 0 && ItemsLength(bl, []) == 0;
    assert ItemsBits(bl, codes, [it], 0) == ItemBits(bl, codes, it, 0);
    Shl0(ExtraBits(it.sym));
    ShlAdd(codes[it.sym], Shl(it.extra, bl[it.sym]), n);
    ShlShl(it.extra, bl[it.sym], n);
  }

  lemma ExtraFits(it: Item)
    requires ItemOK(it)
    ensures it.extra < Pow2(ExtraBits(it.sym)) && ExtraBits(it.sym) <= 7
    ensures ExtraBits(it.sym) == 0 ==> it.extra == 0
  {
    assert Pow2(0) == 1;
    assert Pow2(2) == 4;
    assert Pow2(3) == 8;
    assert Pow2(7) == 128;
  }

  /** Sends a symbol with its extra bits. */
  method SendItem(out: BitWriter, bl: seq<nat>, codes: seq<nat>, it: Item)
    requires out.Valid() && Codes(bl, codes) && ItemOK(it)
    modifies out
    ensures out.Valid()
    ensures SentAfter(old(out.Value()), old(out.Length()), bl, codes, [it], out.Value(), out.Length())
  {
    hide SentAfter, Shl, Stream, Pow2, ItemOK;
    ExtraFits(it);
    SymbolFits(it);
    SentOne(out.Value(), out.Length(), bl, codes, it);
    ghost var n := out.Length();
    out.SendBits(codes[it.sym], bl[it.sym]);
    if it.sym >= 16 {
      out.SendBits(it.extra, ExtraBits(it.sym));
    } else {
      Shl0(n + bl[it.sym]);
    }
  }

  lemma SymbolFits(it: Item)
    requires ItemOK(it)
    ensures it.sym < 19 && (it.sym < 16 ==> ExtraBits(it.sym) == 0 && it.extra == 0)
  {
  }

  /** Sends a run of count lengths cur. */
  method SendRun(out: BitWriter, bl: seq<nat>, codes: seq<nat>, cur: nat, count0: nat, prev: int, min: nat)
    requires out.Valid() && Codes(bl, codes)
    requires cur <= 15 && 1 <= count0 <= Limits(cur, prev).0 && min == Limits(cur, prev).1
    modifies out
    ensures out.Valid()
    ensures SentAfter(old(out.Value()), old(out.Length()), bl, codes, Run(cur, count0, prev), out.Value(), out.Length())
  {
    hide SentAfter, Stream, Shl, Codes, ItemOK;
    ghost var v, n := out.Value(), out.Length();
    var count := count0;
    CodesSize(bl, codes);
    PlainOK(cur, 0);
    if count < min {
      ghost var sent: seq<Item> := [];
      SentNone(v, n, bl, codes);
      while true
        invariant out.Valid() && 1 <= count <= count0
        invariant sent == seq(count0 - count, _ => Item(cur, 0))
        invariant SentAfter(v, n, bl, codes, sent, out.Value(), out.Length())
        decreases count
      {
        ghost var v1, n1 := out.Value(), out.Length();
        SendItem(out, bl, codes, Item(cur, 0));
        SentMore(v, n, bl, codes, sent, v1, n1, [Item(cur, 0)], out.Value(), out.Length());
        sent := sent + [Item(cur, 0)];
        count := count - 1;
        if count == 0 {
          assert sent == Run(cur, count0, prev);
          break;
        }
      }
    } else if cur != 0 {
      if cur != prev {
        SendItem(out, bl, codes, Item(cur, 0));
        count := count - 1;
        RepeatOK(REP_3_6, count - 3);
        ghost var v1, n1 := out.Value(), out.Length();
        SendItem(out, bl, codes, Item(REP_3_6, count - 3));
        SentMore(v, n, bl, codes, [Item(cur, 0)], v1, n1, [Item(REP_3_6, count - 3)], out.Value(), out.Length());
        assert [Item(cur, 0)] + [Item(REP_3_6, count - 3)] == Run(cur, count0, prev);
      } else {
        RepeatOK(REP_3_6, count - 3);
        SendItem(out, bl, codes, Item(REP_3_6, count - 3));
      }
    } else if count <= 10 {
      RepeatOK(REPZ_3_10, count - 3);
      SendItem(out, bl, codes, Item(REPZ_3_10, count - 3));
    } else {
      RepeatOK(REPZ_11_138, count - 11);
      SendItem(out, bl, codes, Item(REPZ_11_138, count - 11));
    }
  }

  lemma CodesSize(bl: seq<nat>, codes: seq<nat>)
    requires Codes(bl, codes)
    ensures |bl| == |codes| == 19
  {
  }

  lemma PlainOK(cur: nat, extra: nat)
    requires cur <= 15 && extra == 0
    ensures ItemOK(Item(cur, extra))
  {
  }

  lemma RepeatOK(sym: nat, extra: nat)
    requires (sym == REP_3_6 && extra <= 3) || (sym == REPZ_3_10 && extra <= 7) || (sym == REPZ_11_138 && extra <= 127)
    ensures ItemOK(Item(sym, extra))
  {
  }

  /** Sends a table of lengths in compressed form. */
  method SendTree(out: BitWriter, bl: seq<nat>, codes: seq<nat>, lens: seq<nat>)
    requires out.Valid() && Codes(bl, codes) && LengthsOK(lens)
    modifies out
    ensures out.Valid()
    ensures SentAfter(old(out.Value()), old(out.Length()), bl, codes, TreeItems(lens), out.Value(), out.Length())
  {
    hide SentAfter, Stream, Shl, Codes, Emit, Run;
    ghost var v, n0 := out.Value(), out.Length();
    ghost var sent: seq<Item> := [];
    CodesSize(bl, codes);
    SentNone(v, n0, bl, codes);
    var prevlen: int := -1;
    var nextlen := LengthAt(lens, 0);
    var count, maxCount, minCount := 0, 7, 4;
    if nextlen == 0 {
      maxCount, minCount := 138, 3;
    }
    assert TreeItems(lens) == Emit(lens, 0, 0, prevlen);
    for n := 0 to |lens|
      invariant out.Valid() && nextlen == LengthAt(lens, n) && -1 <= prevlen <= 15
      invariant n < |lens| ==> (maxCount, minCount) == Limits(nextlen, prevlen) && 0 <= count < maxCount
      invariant SentAfter(v, n0, bl, codes, sent, out.Value(), out.Length())
      invariant sent + Emit(lens, n, count, prevlen) == TreeItems(lens)
    {
      EmitStep(lens, n, count, prevlen);
      var curlen := nextlen;
      nextlen := LengthAt(lens, n + 1);
      count := count + 1;
      if count < maxCount && curlen == nextlen {
        continue;
      }
      ghost var v1, n1 := out.Value(), out.Length();
      SendRun(out, bl, codes, curlen, count, prevlen, minCount);
      SentMore(v, n0, bl, codes, sent, v1, n1, Run(curlen, count, prevlen), out.Value(), out.Length());
      sent := sent + Run(curlen, count, prevlen);
      count := 0;
      prevlen := curlen;
      if nextlen == 0 {
        maxCount, minCount := 138, 3;
      } else if curlen == nextlen {
        maxCount, minCount := 6, 3;
      } else {
        maxCount, minCount := 7, 4;
      }
    }
    EmitEnd(lens, count, prevlen);
    assert sent + [] == sent;
  }
}
