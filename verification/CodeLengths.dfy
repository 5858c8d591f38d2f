/** Run-length coding of code lengths (section 3.2.7 of RFC 1951): symbols 0..15
    are lengths, 16 repeats the last length, 17 and 18 are runs of zeros. */
module CodeLengths {
  import opened Wrappers

  const REP_3_6: nat := 16
  const REPZ_3_10: nat := 17
  const REPZ_11_138: nat := 18

  /** The length after the last one, unlike any length. */
  const GUARD: nat := 0xffff

  /** A symbol of the code-length alphabet and the value of its extra bits. */
  datatype Item = Item(sym: nat, extra: nat)

  function ExtraBits(sym: nat): nat {
    if sym == REP_3_6 then 2 else if sym == REPZ_3_10 then 3 else if sym == REPZ_11_138 then 7 else 0
  }

  predicate ItemOK(it: Item) {
    it.sym <= 18 && it.extra < (match ExtraBits(it.sym) case 0 => 1 case 2 => 4 case 3 => 8 case _ => 128)
  }

  function Repeat(x: nat, n: nat): (r: seq<nat>)
    ensures |r| == n && forall i {:trigger r[i]} :: 0 <= i < n ==> r[i] == x
  {
    seq(n, _ => x)
  }

  /** What one symbol adds to the lengths before it; None when there is nothing to repeat. */
  function Expand(lens: seq<nat>, it: Item): Option<seq<nat>> {
    if it.sym < 16 then Some(lens + [it.sym])
    else if it.sym == REP_3_6 then
      if lens == [] then None else Some(lens + Repeat(lens[|lens| - 1], 3 + it.extra))
    else if it.sym == REPZ_3_10 then Some(lens + Repeat(0, 3 + it.extra))
    else Some(lens + Repeat(0, 11 + it.extra))
  }

  /** What a sequence of symbols adds to the lengths before it. */
  function ExpandAll(lens: seq<nat>, items: seq<Item>): Option<seq<nat>>
    decreases |items|
  {
    if items == [] then Some(lens)
    else match Expand(lens, items[0])
      case None => None
      case Some(longer) => ExpandAll(longer, items[1..])
  }

  /** With its extra bits a repeat symbol can say that n more lengths come, and that they are x. */
  ghost predicate Says(lens: seq<nat>, sym: nat, x: nat, n: nat) {
    exists e: nat :: ItemOK(Item(sym, e)) && Expand(lens, Item(sym, e)) == Some(lens + Repeat(x, n))
  }

  /** What the repeat symbols can say, as the standard has it: 16 stands for 3 to 6 more of the last length,
      17 for 3 to 10 zeros, 18 for 11 to 138. */
  lemma RepeatRule(lens: seq<nat>, n: nat)
    ensures !exists x, m {:trigger Says(lens, 16, x, m)} :: lens == [] && Says(lens, 16, x, m)
    ensures lens != [] ==> (Says(lens, 16, lens[|lens| - 1], n) <==> 3 <= n <= 6)
    ensures Says(lens, 17, 0, n) <==> 3 <= n <= 10
    ensures Says(lens, 18, 0, n) <==> 11 <= n <= 138
  {
    if lens != [] {
      SaysFrom(lens, 16, lens[|lens| - 1], n, 3, 4);
    }
    SaysFrom(lens, 17, 0, n, 3, 8);
    SaysFrom(lens, 18, 0, n, 11, 128);
  }

  lemma SaysFrom(lens: seq<nat>, sym: nat, x: nat, n: nat, first: nat, many: nat)
    requires forall e: nat {:trigger Item(sym, e)} ::
               (ItemOK(Item(sym, e)) <==> e < many) && Expand(lens, Item(sym, e)) == Some(lens + Repeat(x, first + e))
    ensures Says(lens, sym, x, n) <==> first <= n < first + many
  {
    if Says(lens, sym, x, n) {
      var e: nat :| ItemOK(Item(sym, e)) && Expand(lens, Item(sym, e)) == Some(lens + Repeat(x, n));
      assert |lens + Repeat(x, n)| == |lens + Repeat(x, first + e)|;
    }
    if first <= n < first + many {
      assert ItemOK(Item(sym, n - first));
    }
  }

  lemma {:induction false} ExpandAppend(lens: seq<nat>, a: seq<Item>, b: seq<Item>)
    ensures ExpandAll(lens, a + b) ==
            match ExpandAll(lens, a) case None => None case Some(longer) => ExpandAll(longer, b)
    decreases |a|
  {
    hide Expand;
    if a == [] {
      assert a + b == b;
    } else {
      assert (a + b)[1..] == a[1..] + b;
      match Expand(lens, a[0])
      case None =>
      case Some(longer) => ExpandAppend(longer, a[1..], b);
    }
  }

  // ---------- the encoder ----------

  /** How often a length may and must repeat before a repeat symbol is used. */
  function Limits(next: nat, prev: int): (nat, nat) {
    if next == 0 then (138, 3) else if next == prev then (6, 3) else (7, 4)
  }

  /** The symbols for count times the length cur after the length prev. */
  function Run(cur: nat, count: nat, prev: int): seq<Item> {
    var (_, min) := Limits(cur, prev);
    if count < min then seq(count, _ => Item(cur, 0))
    else if cur != 0 then
      if cur != prev then [Item(cur, 0), Item(REP_3_6, count - 4)] else [Item(REP_3_6, count - 3)]
    else if count <= 10 then [Item(REPZ_3_10, count - 3)]
    else [Item(REPZ_11_138, count - 11)]
  }

  function LengthAt(lens: seq<nat>, n: nat): nat {
    if n < |lens| then lens[n] else GUARD
  }

  /** The symbols still to come at position n, with count lengths equal to the one at
      n waiting before it, and prev the length before those. */
  function Emit(lens: seq<nat>, n: nat, count: nat, prev: int): seq<Item>
    decreases |lens| - n
  {
    if n >= |lens| then []
    else
      var (max, _) := Limits(lens[n], prev);
      if count + 1 < max && lens[n] == LengthAt(lens, n + 1) then Emit(lens, n + 1, count + 1, prev)
      else Run(lens[n], count + 1, prev) + Emit(lens, n + 1, 0, lens[n])
  }

  /** The symbols a table of lengths is sent as. */
  function TreeItems(lens: seq<nat>): seq<Item> {
    Emit(lens, 0, 0, -1)
  }

  ghost predicate LengthsOK(lens: seq<nat>) {
    forall i {:trigger lens[i]} :: 0 <= i < |lens| ==> lens[i] <= 15
  }

  lemma {:induction false} PlainExpands(pre: seq<nat>, cur: nat, n: nat)
    requires cur <= 15
    ensures ExpandAll(pre, seq(n, _ => Item(cur, 0))) == Some(pre + Repeat(cur, n))
    decreases n
  {
    var items := seq(n, _ => Item(cur, 0));
    if n == 0 {
      assert pre + Repeat(cur, 0) == pre;
    } else {
      assert items[1..] == seq(n - 1, _ => Item(cur, 0));
      PlainExpands(pre + [cur], cur, n - 1);
      assert pre + [cur] + Repeat(cur, n - 1) == pre + Repeat(cur, n);
    }
  }

  lemma OneItem(pre: seq<nat>, it: Item)
    ensures ExpandAll(pre, [it]) == Expand(pre, it)
  {
    assert [it][1..] == [];
  }

  /** A run expands to itself. */
  lemma RunExpands(pre: seq<nat>, cur: nat, count: nat, prev: int)
    requires cur <= 15 && 1 <= count <= Limits(cur, prev).0
    requires prev >= 0 ==> pre != [] && pre[|pre| - 1] == prev
    ensures ExpandAll(pre, Run(cur, count, prev)) == Some(pre + Repeat(cur, count))
  {
    hide ExpandAll;
    var (_, min) := Limits(cur, prev);
    if count < min {
      PlainExpands(pre, cur, count);
    } else if cur != 0 && cur != prev {
      RepeatedExpands(pre, cur, count);
    } else {
      OneItem(pre, Run(cur, count, prev)[0]);
    }
  }

  lemma RepeatedExpands(pre: seq<nat>, cur: nat, count: nat)
    requires cur <= 15 && count >= 4
    ensures ExpandAll(pre, [Item(cur, 0), Item(REP_3_6, count - 4)]) == Some(pre + Repeat(cur, count))
  {
    hide ExpandAll;
    var a, b := [Item(cur, 0)], [Item(REP_3_6, count - 4)];
    OneItem(pre, a[0]);
    OneItem(pre + [cur], b[0]);
    ExpandAppend(pre, a, b);
    assert pre + [cur] + Repeat(cur, count - 1) == pre + Repeat(cur, count);
    assert a + b == [Item(cur, 0), Item(REP_3_6, count - 4)];
  }

  lemma RunOK(cur: nat, count: nat, prev: int)
    requires cur <= 15 && 1 <= count <= Limits(cur, prev).0
    ensures forall i {:trigger Run(cur, count, prev)[i]} :: 0 <= i < |Run(cur, count, prev)| ==> ItemOK(Run(cur, count, prev)[i])
  {
  }

  /** What is sent from position n on expands to the lengths from there on. */
  lemma {:induction false} EmitExpands(lens: seq<nat>, n: nat, count: nat, prev: int, pre: seq<nat>)
    requires LengthsOK(lens) && count <= n <= |lens|
    requires n == |lens| ==> count == 0
    requires n < |lens| ==> count < Limits(lens[n], prev).0 && lens[n - count..n] == Repeat(lens[n], count)
    requires prev >= 0 ==> n > count && lens[n - count - 1] == prev
    ensures ExpandAll(pre + lens[..n - count], Emit(lens, n, count, prev)) == Some(pre + lens)
    ensures forall i {:trigger Emit(lens, n, count, prev)[i]} ::
              0 <= i < |Emit(lens, n, count, prev)| ==> ItemOK(Emit(lens, n, count, prev)[i])
    decreases |lens| - n
  {
    hide Run, ExpandAll, ItemOK;
    var done := pre + lens[..n - count];
    if n == |lens| {
      assert lens[..n] == lens;
      NothingLeft(pre + lens);
    } else {
      var cur := lens[n];
      var (max, _) := Limits(cur, prev);
      RepeatMore(lens, n, count);
      if count + 1 < max && cur == LengthAt(lens, n + 1) {
        EmitExpands(lens, n + 1, count + 1, prev, pre);
      } else {
        RunExpands(done, cur, count + 1, prev);
        RunOK(cur, count + 1, prev);
        assert done + Repeat(cur, count + 1) == pre + lens[..n + 1];
        EmitExpands(lens, n + 1, 0, cur, pre);
        ExpandAppend(done, Run(cur, count + 1, prev), Emit(lens, n + 1, 0, cur));
      }
    }
  }

  lemma RepeatMore(lens: seq<nat>, n: nat, count: nat)
    requires count <= n < |lens| && lens[n - count..n] == Repeat(lens[n], count)
    ensures lens[n - count..n + 1] == Repeat(lens[n], count + 1)
  {
    assert lens[n - count..n + 1] == lens[n - count..n] + [lens[n]];
    assert Repeat(lens[n], count) + [lens[n]] == Repeat(lens[n], count + 1);
  }

  lemma NothingLeft(lens: seq<nat>)
    ensures ExpandAll(lens, []) == Some(lens)
  {
  }

  /** What is sent for a table of lengths expands to it, whatever was sent before. */
  lemma TreeExpands(lens: seq<nat>, pre: seq<nat>)
    requires LengthsOK(lens)
    ensures ExpandAll(pre, TreeItems(lens)) == Some(pre + lens)
    ensures forall i {:trigger TreeItems(lens)[i]} :: 0 <= i < |TreeItems(lens)| ==> ItemOK(TreeItems(lens)[i])
  {
    hide Emit, ExpandAll, ItemOK;
    EmitExpands(lens, 0, 0, -1, pre);
    assert pre + lens[..0] == pre;
  }

  /** Both tables, one after the other, expand to both. */
  lemma BothTreesExpand(llens: seq<nat>, dlens: seq<nat>)
    requires LengthsOK(llens) && LengthsOK(dlens)
    ensures ExpandAll([], TreeItems(llens) + TreeItems(dlens)) == Some(llens + dlens)
  {
    hide TreeItems, ExpandAll;
    TreeExpands(llens, []);
    TreeExpands(dlens, llens);
    ExpandAppend([], TreeItems(llens), TreeItems(dlens));
    assert [] + llens == llens;
  }

  /** How often a symbol is sent. */
  function Occurrences(items: seq<Item>, sym: nat): nat {
    if items == [] then 0 else (if items[0].sym == sym then 1 else 0) + Occurrences(items[1..], sym)
  }

  lemma {:induction false} OccurrencesAppend(a: seq<Item>, b: seq<Item>, sym: nat)
    ensures Occurrences(a + b, sym) == Occurrences(a, sym) + Occurrences(b, sym)
    decreases |a|
  {
    if a == [] {
      assert a + b == b;
    } else {
      assert (a + b)[1..] == a[1..] + b;
      OccurrencesAppend(a[1..], b, sym);
    }
  }

  lemma {:induction false} PlainOccurrences(cur: nat, n: nat, sym: nat)
    ensures Occurrences(seq(n, _ => Item(cur, 0)), sym) == if sym == cur then n else 0
    decreases n
  {
    if n > 0 {
      assert seq(n, _ => Item(cur, 0))[1..] == seq(n - 1, _ => Item(cur, 0));
      PlainOccurrences(cur, n - 1, sym);
    }
  }

  /** Adds the frequencies of one run. */
  method CountRun(freq0: seq<nat>, cur: nat, count: nat, prev: int, min: nat) returns (freq: seq<nat>)
    requires |freq0| == 19 && cur <= 15 && 1 <= count <= Limits(cur, prev).0 && min == Limits(cur, prev).1
    ensures |freq| == 19
    ensures forall s {:trigger freq[s]} :: 0 <= s < 19 ==> freq[s] == freq0[s] + Occurrences(Run(cur, count, prev), s)
  {
    freq := freq0;
    if count < min {
      freq := freq[cur := freq[cur] + count];
    } else if cur != 0 {
      if cur != prev {
        freq := freq[cur := freq[cur] + 1];
      }
      freq := freq[REP_3_6 := freq[REP_3_6] + 1];
    } else if count <= 10 {
      freq := freq[REPZ_3_10 := freq[REPZ_3_10] + 1];
    } else {
      freq := freq[REPZ_11_138 := freq[REPZ_11_138] + 1];
    }
    forall s | 0 <= s < 19 ensures freq[s] == freq0[s] + Occurrences(Run(cur, count, prev), s) {
      RunOccurrences(cur, count, prev, s);
    }
  }

  lemma OneOccurrence(it: Item, s: nat)
    ensures Occurrences([it], s) == if it.sym == s then 1 else 0
  {
    assert [it][1..] == [];
  }

  lemma RunOccurrences(cur: nat, count: nat, prev: int, s: nat)
    requires cur <= 15 && 1 <= count <= Limits(cur, prev).0
    ensures Occurrences(Run(cur, count, prev), s) ==
            var min := Limits(cur, prev).1;
            if count < min then (if s == cur then count else 0)
            else if cur != 0 then (if s == cur && cur != prev then 1 else 0) + (if s == REP_3_6 then 1 else 0)
            else if count <= 10 then (if s == REPZ_3_10 then 1 else 0)
            else (if s == REPZ_11_138 then 1 else 0)
  {
    var items := Run(cur, count, prev);
    if count < Limits(cur, prev).1 {
      PlainOccurrences(cur, count, s);
    } else if |items| == 1 {
      OneOccurrence(items[0], s);
    } else {
      OneOccurrence(items[0], s);
      OneOccurrence(items[1], s);
      OccurrencesAppend([items[0]], [items[1]], s);
    }
  }

  /** Counts the symbols that will be sent for a table of lengths. */
  method ScanTree(lens: seq<nat>, freq0: seq<nat>) returns (freq: seq<nat>)
    requires LengthsOK(lens) && |freq0| == 19
    ensures |freq| == 19
    ensures forall s {:trigger freq[s]} :: 0 <= s < 19 ==> freq[s] == freq0[s] + Occurrences(TreeItems(lens), s)
  {
    hide Emit, Run, Occurrences;
    freq := freq0;
    var prevlen: int := -1;
    var nextlen := LengthAt(lens, 0);
    var count, maxCount, minCount := 0, 7, 4;
    if nextlen == 0 {
      maxCount, minCount := 138, 3;
    }
    assert TreeItems(lens) == Emit(lens, 0, 0, prevlen);
    for n := 0 to |lens|
      invariant |freq| == 19 && nextlen == LengthAt(lens, n) && -1 <= prevlen <= 15
      invariant n < |lens| ==> (maxCount, minCount) == Limits(nextlen, prevlen) && 0 <= count < maxCount
      invariant forall s {:trigger freq[s]} :: 0 <= s < 19 ==>
                  freq[s] + Occurrences(Emit(lens, n, count, prevlen), s) == freq0[s] + Occurrences(TreeItems(lens), s)
    {
      EmitStep(lens, n, count, prevlen);
      var curlen := nextlen;
      nextlen := LengthAt(lens, n + 1);
      count := count + 1;
      if count < maxCount && curlen == nextlen {
        continue;
      }
      forall s | 0 <= s < 19 ensures Occurrences(Emit(lens, n, count - 1, prevlen), s)
                                  == Occurrences(Run(curlen, count, prevlen), s) + Occurrences(Emit(lens, n + 1, 0, curlen), s)
      {
        OccurrencesAppend(Run(curlen, count, prevlen), Emit(lens, n + 1, 0, curlen), s);
      }
      freq := CountRun(freq, curlen, count, prevlen, minCount);
      count := 0;
      prevlen := curlen;
      if nextlen == 0 {
        maxCount, minCount := 138, 3;
      } else if curlen == nextlen {
        maxCount, minCount := 6, 3;
      } else {
        maxCount, minCount := 7, 4;
      }
    }
    EmitEnd(lens, count, prevlen);
  }

  lemma EmitStep(lens: seq<nat>, n: nat, count: nat, prev: int)
    requires n < |lens|
    ensures Emit(lens, n, count, prev) ==
            if count + 1 < Limits(lens[n], prev).0 && lens[n] == LengthAt(lens, n + 1) then Emit(lens, n + 1, count + 1, prev)
            else Run(lens[n], count + 1, prev) + Emit(lens, n + 1, 0, lens[n])
  {
  }

  lemma EmitEnd(lens: seq<nat>, count: nat, prev: int)
    ensures Emit(lens, |lens|, count, prev) == [] && forall s :: Occurrences([], s) == 0
  {
  }
}
