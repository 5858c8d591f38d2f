/** The header of a block with dynamic trees (section 3.2.7 of RFC 1951): building the
    code-length tree, sending all trees, and reading them back. */
module DynamicTrees {
  import opened Wrappers
  import opened Bits
  import opened BitStream
  import opened CodeLengths
  import opened TreeSender
  import opened CodeLensDecoder
  import opened Huffman
  import InflateTable
  import EncoderTree
  import HuffmanTree

  /** The order in which the lengths of the code-length codes are sent, as both programs list it. */
  const ORDER: seq<nat> := [16, 17, 18, 0, 8, 7, 9, 6, 10, 5, 11, 4, 12, 3, 13, 2, 14, 1, 15]

  /** The rule behind the list: the three repeat symbols and 0, and then from the middle
      lengths outwards, 8 and up in turn with 7 and down. */
  function OrderAt(i: nat): (s: nat)
    requires i < 19
    ensures s < 19
  {
    if i < 3 then 16 + i
    else if i == 3 then 0
    else if i % 2 == 0 then 8 + (i - 4) / 2
    else 7 - (i - 5) / 2
  }

  /** Where a symbol is in the order. */
  function Rank(s: nat): (i: nat)
    requires s < 19
    ensures i < 19 && OrderAt(i) == s
    ensures s < 16 ==> i >= 3
  {
    if s >= 16 then s - 16
    else if s == 0 then 3
    else if s >= 8 then 4 + 2 * (s - 8)
    else 5 + 2 * (7 - s)
  }

  lemma RankOfOrder(i: nat)
    requires i < 19
    ensures Rank(OrderAt(i)) == i
  {
  }

  function Listed(i: nat): nat
    requires i < 19
  {
    ORDER[i]
  }

  /** The list follows the rule. */
  lemma OrderListed(i: nat)
    requires i < 19
    ensures Listed(i) == OrderAt(i)
  {
  }

  // ---------- unused symbols after the last ----------

  lemma {:induction false} PaddedSyms(lens: seq<nat>, n: nat, l: nat)
    requires l > 0
    ensures SymsOf(lens + Repeat(0, n), l) == SymsOf(lens, l)
    decreases n
  {
    var padded := lens + Repeat(0, n);
    if n == 0 {
      assert padded == lens;
    } else {
      assert padded[..|padded| - 1] == lens + Repeat(0, n - 1);
      PaddedSyms(lens, n - 1, l);
    }
  }

  lemma {:induction false} PaddedCanon(lens: seq<nat>, n: nat, l: nat)
    ensures Canon(lens + Repeat(0, n), l) == Canon(lens, l)
  {
    hide SymsOf;
    if l > 0 {
      PaddedCanon(lens, n, l - 1);
      PaddedSyms(lens, n, l);
    }
  }

  lemma {:induction false} PaddedKraft(w: nat, lens: seq<nat>, n: nat, l: nat)
    requires l <= w
    ensures Kraft(w, lens + Repeat(0, n), l) == Kraft(w, lens, l)
  {
    hide SymsOf;
    if l > 0 {
      PaddedKraft(w, lens, n, l - 1);
      PaddedSyms(lens, n, l);
    }
  }

  lemma {:induction false} PaddedStart(w: nat, lens: seq<nat>, n: nat, k: nat)
    requires k <= |Work(w, lens)|
    ensures k <= |Work(w, lens + Repeat(0, n))| && Start(w, lens + Repeat(0, n), k) == Start(w, lens, k)
  {
    hide Canon, Pow2;
    PaddedCanon(lens, n, w);
    if k > 0 {
      PaddedStart(w, lens, n, k - 1);
    }
  }

  /** Unused symbols after the last change no code. */
  lemma PaddedCode(w: nat, lens: seq<nat>, n: nat, s: nat)
    requires LensOK(w, lens) && s < |lens| && lens[s] > 0
    ensures LensOK(w, lens + Repeat(0, n)) && CodeOf(w, lens + Repeat(0, n), s) == CodeOf(w, lens, s)
  {
    hide Canon, SymsOf, Start, Rev;
    var padded := lens + Repeat(0, n);
    assert padded[s] == lens[s] && padded[..s] == lens[..s];
    WorkAtPos(w, lens, s);
    PaddedCanon(lens, n, lens[s] - 1);
    PaddedStart(w, lens, n, Pos(lens, s));
  }

  // ---------- the code-length tree ----------

  /** The tree can send the symbols in items, with codes of at most seven bits that
      fill the code space. */
  ghost predicate BlTree(w: nat, bl: seq<nat>, codes: seq<nat>, items: seq<Item>) {
    && Codes(bl, codes) && LensOK(w, bl) && LensOK(7, bl) && Kraft(w, bl, w) == Pow2(w)
    && ItemsOK(items)
    && forall i {:trigger items[i]} :: 0 <= i < |items| ==>
         bl[items[i].sym] > 0 && codes[items[i].sym] == CodeOf(w, bl, items[i].sym)
  }

  lemma {:induction false} ItemOccurs(items: seq<Item>, i: nat)
    requires i < |items|
    ensures Occurrences(items, items[i].sym) > 0
    decreases |items|
  {
    if i > 0 {
      ItemOccurs(items[1..], i - 1);
    }
  }

  /** The code lengths of 19 symbols, from those up to the last used one. */
  function PadCodes(lens: seq<nat>, codes: seq<nat>): (r: seq<nat>)
    requires |lens| == |codes| <= 19
    ensures |r| == 19 && forall s {:trigger r[s]} :: 0 <= s < 19 ==> r[s] == if s < |lens| && lens[s] > 0 then codes[s] else 0
  {
    seq(19, s requires 0 <= s < 19 => if s < |lens| && lens[s] > 0 then codes[s] else 0)
  }

  lemma TreeUsable(w: nat, freq: seq<nat>, lens: seq<nat>, codes: seq<nat>, items: seq<Item>, bl: seq<nat>, pcodes: seq<nat>)
    requires EncoderTree.CodeFor(7, w, 19, freq, lens, codes) && w <= 15 && ItemsOK(items)
    requires forall i {:trigger items[i]} :: 0 <= i < |items| ==> items[i].sym < 19 && freq[items[i].sym] > 0
    requires bl == lens + Repeat(0, 19 - |lens|) && pcodes == PadCodes(lens, codes)
    ensures BlTree(w, bl, pcodes, items)
  {
    hide Kraft, Pow2, CodeOf;
    PaddedKraft(w, lens, 19 - |lens|, w);
    forall s | 0 <= s < 19 ensures bl[s] <= 15 && pcodes[s] < Pow2(bl[s]) {
      if s < |lens| && lens[s] > 0 {
        PaddedCode(w, lens, 19 - |lens|, s);
        CodeBound(w, bl, s);
      }
    }
    forall i | 0 <= i < |items| ensures bl[items[i].sym] > 0 && pcodes[items[i].sym] == CodeOf(w, bl, items[i].sym) {
      var s := items[i].sym;
      assert freq[s] != 0;
      PaddedCode(w, lens, 19 - |lens|, s);
    }
  }

  lemma CodeBound(w: nat, lens: seq<nat>, s: nat)
    requires LensOK(w, lens) && s < |lens| && lens[s] > 0
    ensures CodeOf(w, lens, s) < Pow2(lens[s])
  {
    hide Canon, SymsOf, Huff;
    WorkAtPos(w, lens, s);
    InflateTable.HuffBound(w, lens, Pos(lens, s));
  }

  lemma ScannedItems(llens: seq<nat>, dlens: seq<nat>, freq: seq<nat>, items: seq<Item>)
    requires LengthsOK(llens) && LengthsOK(dlens) && |freq| >= 19 && items == TreeItems(llens) + TreeItems(dlens)
    requires forall s {:trigger freq[s]} :: 0 <= s < 19 ==>
               freq[s] == Occurrences(TreeItems(llens), s) + Occurrences(TreeItems(dlens), s)
    ensures ItemsOK(items)
    ensures forall i {:trigger items[i]} :: 0 <= i < |items| ==> items[i].sym < 19 && freq[items[i].sym] > 0
    ensures forall s {:trigger freq[s]} :: 0 <= s < 19 ==> freq[s] == Occurrences(items, s)
  {
    hide TreeItems, Occurrences;
    TreeExpands(llens, []);
    TreeExpands(dlens, []);
    forall s | 0 <= s < 19 ensures freq[s] == Occurrences(items, s) {
      OccurrencesAppend(TreeItems(llens), TreeItems(dlens), s);
    }
    forall i | 0 <= i < |items| ensures ItemOK(items[i]) && items[i].sym < 19 && freq[items[i].sym] > 0 {
      ItemOccurs(items, i);
      OccurrencesAppend(TreeItems(llens), TreeItems(dlens), items[i].sym);
    }
  }

  /** Some symbol for a length, not for a repetition, is used when a length is not zero. */
  lemma {:induction false} PlainSymbol(lens: seq<nat>, items: seq<Item>, target: seq<nat>, k: nat)
    requires ItemsOK(items) && ExpandAll(lens, items) == Some(target) && k < |target| && target[k] != 0
    requires forall i {:trigger lens[i]} :: 0 <= i < |lens| ==> lens[i] == 0
    ensures exists i :: 0 <= i < |items| && items[i].sym < 16
    decreases |items|
  {
    if items == [] {
      assert false;
    } else if items[0].sym >= 16 {
      var longer := Expand(lens, items[0]).value;
      PlainSymbol(longer, items[1..], target, k);
      var i :| 0 <= i < |items[1..]| && items[1..][i].sym < 16;
      assert items[i + 1].sym < 16;
    }
  }

  /** Only repetitions are sent, and more than one kind of them. */
  ghost predicate OnlyRepeats(items: seq<Item>) {
    && (forall i {:trigger items[i]} :: 0 <= i < |items| ==> items[i].sym >= 16)
    && exists i, j :: 0 <= i < |items| && 0 <= j < |items| && items[i].sym != items[j].sym
  }

  /** Builds the tree for the code lengths of two trees, and finds the last of its
      lengths that must be sent: fewer than four only if nothing but repetitions of
      several kinds are sent. */
  method BuildBlTree(w: nat, llens: seq<nat>, dlens: seq<nat>) returns (bl: seq<nat>, codes: seq<nat>, last: int)
    requires 7 <= w <= 15 && LengthsOK(llens) && LengthsOK(dlens)
    ensures BlTree(w, bl, codes, TreeItems(llens) + TreeItems(dlens))
    ensures 2 <= last < 19 && forall i {:trigger OrderAt(i)} :: last < i < 19 ==> bl[OrderAt(i)] == 0
    ensures last < 3 <==> OnlyRepeats(TreeItems(llens) + TreeItems(dlens))
  {
    hide TreeItems, Occurrences, BlTree, EncoderTree.CodeFor, Pow2, Codes, OnlyRepeats, HuffmanTree.Used, Listed;
    ghost var items := TreeItems(llens) + TreeItems(dlens);
    var freq := ScanTree(llens, Repeat(0, 19));
    freq := ScanTree(dlens, freq);
    ScannedItems(llens, dlens, freq, items);
    SevenBits();
    var all := freq + Repeat(0, 20);
    var all', lens, codes', limited := EncoderTree.BuildTree(7, w, 19, all, Repeat(0, 39), Repeat(0, 39), Repeat(0, 573));
    assert forall i {:trigger items[i]} :: 0 <= i < |items| ==> all[items[i].sym] == freq[items[i].sym];
    CodeForSize(w, all, lens, codes');
    bl := lens + Repeat(0, 19 - |lens|);
    codes := PadCodes(lens, codes');
    TreeUsable(w, all, lens, codes', items, bl, codes);
    last := 18;
    while last >= 3
      invariant 2 <= last < 19 && forall i {:trigger OrderAt(i)} :: last < i < 19 ==> bl[OrderAt(i)] == 0
    {
      OrderListed(last);
      if bl[Listed(last)] != 0 {
        break;
      }
      last := last - 1;
    }
    LastPlain(bl, last);
    BlTreeUses(w, bl, codes, items);
    PlainCodes(w, items, freq, all, all', lens, codes', bl);
  }

  /** Four or more lengths must be sent exactly when a plain symbol has a code. */
  lemma LastPlain(bl: seq<nat>, last: int)
    requires |bl| == 19 && 2 <= last < 19 && (last >= 3 ==> bl[OrderAt(last)] != 0)
    requires forall i {:trigger OrderAt(i)} :: last < i < 19 ==> bl[OrderAt(i)] == 0
    ensures last < 3 <==> forall s {:trigger bl[s]} :: 0 <= s < 16 ==> bl[s] == 0
  {
    hide OrderAt;
    if last >= 3 {
      PlainOrder(last);
    } else {
      forall s | 0 <= s < 16 ensures bl[s] == 0 {
        assert OrderAt(Rank(s)) == s;
      }
    }
  }

  lemma PlainOrder(i: nat)
    requires 3 <= i < 19
    ensures OrderAt(i) < 16
  {
  }

  lemma BlTreeUses(w: nat, bl: seq<nat>, codes: seq<nat>, items: seq<Item>)
    requires BlTree(w, bl, codes, items)
    ensures |bl| == 19 && ItemsOK(items) && forall i {:trigger items[i]} :: 0 <= i < |items| ==> items[i].sym < 19 && bl[items[i].sym] > 0
  {
  }

  /** A plain symbol has a code unless only repetitions of several kinds are sent: because
      it is sent, or because a second code was forced. */
  lemma PlainCodes(w: nat, items: seq<Item>, freq: seq<nat>, all: seq<nat>, all': seq<nat>, lens: seq<nat>, codes: seq<nat>, bl: seq<nat>)
    requires |freq| == 19 && all == freq + Repeat(0, 20) && |all'| == |all|
    requires EncoderTree.CodeFor(7, w, 19, all, lens, codes) && |lens| <= 19 && bl == lens + Repeat(0, 19 - |lens|)
    requires |HuffmanTree.Used(all', 19)| == if |HuffmanTree.Used(all, 19)| < 2 then 2 else |HuffmanTree.Used(all, 19)|
    requires forall n {:trigger all'[n]} :: 0 <= n < 19 ==>
               all'[n] == if n < |lens| && lens[n] >= 1 && all[n] == 0 then 1 else all[n]
    requires forall s {:trigger freq[s]} :: 0 <= s < 19 ==> freq[s] == Occurrences(items, s)
    requires ItemsOK(items) && forall i {:trigger items[i]} :: 0 <= i < |items| ==> items[i].sym < 19 && bl[items[i].sym] > 0
    ensures (forall s {:trigger bl[s]} :: 0 <= s < 16 ==> bl[s] == 0) <==> OnlyRepeats(items)
  {
    hide EncoderTree.CodeFor, Occurrences, Repeat;
    var used := HuffmanTree.Used(all, 19);
    if OnlyRepeats(items) {
      SeveralUsed(items, freq, all);
      forall s | 0 <= s < 16 ensures bl[s] == 0 {
        if bl[s] > 0 {
          CodeIsUsed(w, all, lens, codes, s);
          assert freq[s] == all[s];
          OccursAt(items, s);
        }
      }
    }
    if forall s {:trigger bl[s]} :: 0 <= s < 16 ==> bl[s] == 0 {
      forall i | 0 <= i < |items| ensures items[i].sym >= 16 {
      }
      BeginsAsLens(bl, lens, Repeat(0, 19 - |lens|));
      assert |used| >= 2 by {
        if |used| < 2 {
          ForcedPlain(w, all, all', lens, codes);
        }
      }
      TwoOccur(items, freq, all);
    }
  }

  lemma BeginsAsLens(bl: seq<nat>, lens: seq<nat>, more: seq<nat>)
    requires bl == lens + more
    ensures |lens| <= |bl| && forall n {:trigger bl[n]} {:trigger lens[n]} :: 0 <= n < |lens| ==> bl[n] == lens[n]
  {
  }

  /** A code of a tree with two used symbols is that of a used symbol. */
  lemma CodeIsUsed(w: nat, freq: seq<nat>, lens: seq<nat>, codes: seq<nat>, s: nat)
    requires EncoderTree.CodeFor(7, w, 19, freq, lens, codes) && s < |lens| && lens[s] > 0 && |HuffmanTree.Used(freq, 19)| >= 2
    ensures freq[s] != 0
  {
    hide Kraft, Pow2, CodeOf, HuffmanTree.Used;
  }

  lemma {:induction false} OccursAt(items: seq<Item>, s: nat)
    requires Occurrences(items, s) > 0
    ensures exists i :: 0 <= i < |items| && items[i].sym == s
    decreases |items|
  {
    if items[0].sym != s {
      OccursAt(items[1..], s);
      var i :| 0 <= i < |items[1..]| && items[1..][i].sym == s;
      assert items[i + 1].sym == s;
    }
  }

  lemma UsedSymbol(items: seq<Item>, freq: seq<nat>, all: seq<nat>, i: nat)
    requires |freq| == 19 && all == freq + Repeat(0, 20) && i < |items| && items[i].sym < 19
    requires forall s {:trigger freq[s]} :: 0 <= s < 19 ==> freq[s] == Occurrences(items, s)
    ensures items[i].sym in HuffmanTree.Used(all, 19)
  {
    ItemOccurs(items, i);
    assert all[items[i].sym] == freq[items[i].sym];
  }

  lemma SeveralUsed(items: seq<Item>, freq: seq<nat>, all: seq<nat>)
    requires |freq| == 19 && all == freq + Repeat(0, 20) && OnlyRepeats(items)
    requires forall s {:trigger freq[s]} :: 0 <= s < 19 ==> freq[s] == Occurrences(items, s)
    requires forall i {:trigger items[i]} :: 0 <= i < |items| ==> items[i].sym < 19
    ensures |HuffmanTree.Used(all, 19)| >= 2
  {
    hide Occurrences, HuffmanTree.Used, Repeat;
    var i, j :| 0 <= i < |items| && 0 <= j < |items| && items[i].sym != items[j].sym;
    UsedSymbol(items, freq, all, i);
    UsedSymbol(items, freq, all, j);
    HuffmanTree.Subset({items[i].sym, items[j].sym}, HuffmanTree.Used(all, 19));
  }

  /** If a code had to be forced, it is that of a plain symbol. */
  lemma ForcedPlain(w: nat, all: seq<nat>, all': seq<nat>, lens: seq<nat>, codes: seq<nat>)
    requires EncoderTree.CodeFor(7, w, 19, all, lens, codes) && |all'| == |all| >= 19 && |lens| <= 19
    requires |HuffmanTree.Used(all', 19)| == 2 && |HuffmanTree.Used(all, 19)| < 2
    requires forall n {:trigger all'[n]} :: 0 <= n < 19 ==>
               all'[n] == if n < |lens| && lens[n] >= 1 && all[n] == 0 then 1 else all[n]
    ensures exists n :: 0 <= n < |lens| && n <= 2 && lens[n] >= 1
  {
    hide Kraft, Pow2, CodeOf;
    var used, used' := HuffmanTree.Used(all, 19), HuffmanTree.Used(all', 19);
    assert used <= used';
    assert used' == used + (used' - used);
    var n :| n in used' - used;
    assert all'[n] != all[n];
  }

  lemma TwoOccur(items: seq<Item>, freq: seq<nat>, all: seq<nat>)
    requires |freq| == 19 && all == freq + Repeat(0, 20) && |HuffmanTree.Used(all, 19)| >= 2
    requires forall s {:trigger freq[s]} :: 0 <= s < 19 ==> freq[s] == Occurrences(items, s)
    ensures exists i, j :: 0 <= i < |items| && 0 <= j < |items| && items[i].sym != items[j].sym
  {
    hide Occurrences;
    var used := HuffmanTree.Used(all, 19);
    var a :| a in used;
    assert used == {a} + (used - {a});
    var b :| b in used - {a};
    assert all[a] == freq[a] && all[b] == freq[b];
    OccursAt(items, a);
    OccursAt(items, b);
  }

  /** One length of the literal tree that is not zero is enough. */
  lemma PlainSent(llens: seq<nat>, dlens: seq<nat>, k: nat)
    requires LengthsOK(llens) && LengthsOK(dlens) && k < |llens| && llens[k] != 0
    ensures !OnlyRepeats(TreeItems(llens) + TreeItems(dlens))
  {
    hide TreeItems, ExpandAll;
    var items := TreeItems(llens) + TreeItems(dlens);
    BothTreesExpand(llens, dlens);
    TreeExpands(llens, []);
    TreeExpands(dlens, []);
    PlainSymbol([], items, llens + dlens, k);
  }

  lemma {:induction false} ZeroRun(lens: seq<nat>, i: nat, j: nat, count: nat, prev: int)
    requires i <= j < |lens| && count + (j - i) < 138 && forall k {:trigger lens[k]} :: 0 <= k < |lens| ==> lens[k] == 0
    ensures Emit(lens, i, count, prev) == Emit(lens, j, count + (j - i), prev)
    decreases j - i
  {
    if i < j {
      ZeroRun(lens, i + 1, j, count + 1, prev);
    }
  }

  /** 257 and 3 lengths of zero, which no tree has, are sent as two kinds of repetitions. */
  lemma ZeroTables()
    ensures TreeItems(Repeat(0, 257)) == [Item(18, 127), Item(18, 108)] && TreeItems(Repeat(0, 3)) == [Item(17, 0)]
    ensures OnlyRepeats(TreeItems(Repeat(0, 257)) + TreeItems(Repeat(0, 3)))
  {
    hide TreeItems, Repeat;
    ZeroTable257();
    ZeroTable3();
    var items := TreeItems(Repeat(0, 257)) + TreeItems(Repeat(0, 3));
    assert items[0].sym != items[2].sym;
  }

  lemma ZeroTable257()
    ensures TreeItems(Repeat(0, 257)) == [Item(18, 127), Item(18, 108)]
  {
    hide Emit, Repeat;
    var l := Repeat(0, 257);
    ZeroRun(l, 0, 137, 0, -1);
    EmitStep(l, 137, 137, -1);
    ZeroRun(l, 138, 256, 0, 0);
    EmitStep(l, 256, 118, 0);
    EmitEnd(l, 0, 0);
  }

  lemma ZeroTable3()
    ensures TreeItems(Repeat(0, 3)) == [Item(17, 0)]
  {
    hide Emit, Repeat;
    var d := Repeat(0, 3);
    ZeroRun(d, 0, 2, 0, -1);
    EmitStep(d, 2, 2, -1);
    EmitEnd(d, 0, 0);
  }

  /** For such tables max_blindex stays at 2. */
  method ZeroTablesSendTooFew(w: nat) returns (last: int)
    requires 7 <= w <= 15
    ensures last == 2
  {
    var bl, codes;
    ZeroTables();
    bl, codes, last := BuildBlTree(w, Repeat(0, 257), Repeat(0, 3));
  }

  lemma SevenBits()
    ensures 19 <= Pow2(7)
  {
    assert Pow2(7) == 128;
  }

  lemma CodeForSize(w: nat, freq: seq<nat>, lens: seq<nat>, codes: seq<nat>)
    requires EncoderTree.CodeFor(7, w, 19, freq, lens, codes)
    ensures |lens| == |codes| <= 19
  {
  }

  // ---------- the lengths of the code-length codes ----------

  /** The lengths at the places r..nb-1 of the order, three bits each, followed by rest. */
  ghost function OrderBits(bl: seq<nat>, nb: nat, r: nat, rest: nat): nat
    requires |bl| == 19 && r <= nb <= 19
    decreases nb - r
  {
    if r == nb then rest else bl[OrderAt(r)] + Shl(OrderBits(bl, nb, r + 1, rest), 3)
  }

  lemma {:induction false} OrderBitsLast(bl: seq<nat>, nb: nat, r: nat, rest: nat)
    requires |bl| == 19 && r <= nb < 19
    ensures OrderBits(bl, nb + 1, r, rest) == OrderBits(bl, nb, r, bl[OrderAt(nb)] + Shl(rest, 3))
    decreases nb - r
  {
    hide Shl, OrderAt;
    if r < nb {
      OrderBitsLast(bl, nb, r + 1, rest);
    } else {
      assert OrderBits(bl, nb + 1, nb + 1, rest) == rest;
    }
  }

  lemma {:induction false} OrderBitsRest(bl: seq<nat>, nb: nat, r: nat, rest: nat)
    requires |bl| == 19 && r <= nb <= 19
    ensures OrderBits(bl, nb, r, rest) == OrderBits(bl, nb, r, 0) + Shl(rest, 3 * (nb - r))
    decreases nb - r
  {
    hide Shl, OrderAt;
    if r < nb {
      OrderBitsRest(bl, nb, r + 1, rest);
      ShlAdd(OrderBits(bl, nb, r + 1, 0), Shl(rest, 3 * (nb - r - 1)), 3);
      ShlShl(rest, 3 * (nb - r - 1), 3);
    } else {
      ShlNone(rest);
    }
  }

  /** The whole header for tables of nl and nd lengths, with nb code-length codes. */
  ghost function HeaderBits(nl: nat, nd: nat, nb: nat, bl: seq<nat>, rest: nat): nat
    requires nl >= 257 && nd >= 1 && 4 <= nb <= 19 && |bl| == 19
  {
    nl - 257 + Shl(nd - 1 + Shl(nb - 4 + Shl(OrderBits(bl, nb, 0, rest), 4), 5), 5)
  }

  lemma HeaderRest(nl: nat, nd: nat, nb: nat, bl: seq<nat>, rest: nat)
    requires nl >= 257 && nd >= 1 && 4 <= nb <= 19 && |bl| == 19
    ensures HeaderBits(nl, nd, nb, bl, rest) == HeaderBits(nl, nd, nb, bl, 0) + Shl(rest, 14 + 3 * nb)
  {
    hide Shl, OrderBits;
    var o := OrderBits(bl, nb, 0, 0);
    OrderBitsRest(bl, nb, 0, rest);
    ShlAdd(o, Shl(rest, 3 * nb), 4);
    ShlShl(rest, 3 * nb, 4);
    ShlAdd(nb - 4 + Shl(o, 4), Shl(rest, 3 * nb + 4), 5);
    ShlShl(rest, 3 * nb + 4, 5);
    ShlAdd(nd - 1 + Shl(nb - 4 + Shl(o, 4), 5), Shl(rest, 3 * nb + 9), 5);
    ShlShl(rest, 3 * nb + 9, 5);
  }

  /** The counts. */
  method SendCounts(out: BitWriter, nl: nat, nd: nat, nb: nat)
    requires out.Valid() && 257 <= nl <= 286 && 1 <= nd <= 30 && 4 <= nb <= 19
    modifies out
    ensures out.Valid()
    ensures SentNumber(old(out.Value()), old(out.Length()), nl - 257 + Shl(nd - 1 + Shl(nb - 4, 5), 5), 14, out.Value(), out.Length())
  {
    hide Shl, Stream, Pow2;
    FieldSizes();
    ghost var v, n := out.Value(), out.Length();
    out.SendBits(nl - 257, 5);
    ghost var v1, n1 := out.Value(), out.Length();
    out.SendBits(nd - 1, 5);
    ghost var v2, n2 := out.Value(), out.Length();
    out.SendBits(nb - 4, 4);
    SentThen(v1, n1, nd - 1, 5, v2, n2, nb - 4, 4, out.Value(), out.Length());
    SentThen(v, n, nl - 257, 5, v1, n1, nd - 1 + Shl(nb - 4, 5), 9, out.Value(), out.Length());
  }

  lemma FieldSizes()
    ensures Pow2(5) == 32 && Pow2(4) == 16 && Pow2(3) == 8
  {
  }

  /** The lengths of the code-length codes, in their order. */
  method SendOrder(out: BitWriter, bl: seq<nat>, nb: nat)
    requires out.Valid() && |bl| == 19 && LensOK(7, bl) && nb <= 19
    modifies out
    ensures out.Valid()
    ensures SentNumber(old(out.Value()), old(out.Length()), OrderBits(bl, nb, 0, 0), 3 * nb, out.Value(), out.Length())
  {
    hide Shl, Stream, Pow2, OrderAt, Listed, SentNumber;
    FieldSizes();
    ghost var v, n := out.Value(), out.Length();
    SentNothing(v, n);
    for rank := 0 to nb
      invariant out.Valid()
      invariant SentNumber(v, n, OrderBits(bl, rank, 0, 0), 3 * rank, out.Value(), out.Length())
    {
      ghost var v1, n1 := out.Value(), out.Length();
      OrderListed(rank);
      var x := bl[Listed(rank)];
      out.SendBits(x, 3);
      SentOneField(v1, n1, x, 3, out.Value(), out.Length());
      SentThen(v, n, OrderBits(bl, rank, 0, 0), 3 * rank, v1, n1, x, 3, out.Value(), out.Length());
      OrderBitsLast(bl, rank, 0, 0);
      Shl0(3);
      OrderBitsRest(bl, rank, 0, x);
    }
  }

  /** Sends the counts, the code-length code and both tables of lengths. */
  method SendAllTrees(out: BitWriter, llens: seq<nat>, dlens: seq<nat>, bl: seq<nat>, codes: seq<nat>, nb: nat)
    requires out.Valid() && 257 <= |llens| <= 286 && 1 <= |dlens| <= 30 && 4 <= nb <= 19
    requires LengthsOK(llens) && LengthsOK(dlens) && Codes(bl, codes) && LensOK(7, bl)
    modifies out
    ensures out.Valid()
    ensures |bl| == |codes| == 19 && ItemsOK(TreeItems(llens) + TreeItems(dlens))
    ensures var items := TreeItems(llens) + TreeItems(dlens);
            SentNumber(old(out.Value()), old(out.Length()),
                       HeaderBits(|llens|, |dlens|, nb, bl, ItemsBits(bl, codes, items, 0)), 14 + 3 * nb + ItemsLength(bl, items),
                       out.Value(), out.Length())
  {
    hide Shl, Stream, SentNumber, SentAfter, TreeItems, Codes, HeaderBits, OrderBits, ItemsBits, ItemsLength;
    CodesSize(bl, codes);
    ghost var v, n := out.Value(), out.Length();
    SendCounts(out, |llens|, |dlens|, nb);
    ghost var v1, n1 := out.Value(), out.Length();
    SendOrder(out, bl, nb);
    ghost var v2, n2 := out.Value(), out.Length();
    SentThen(v, n, |llens| - 257 + Shl(|dlens| - 1 + Shl(nb - 4, 5), 5), 14, v1, n1, OrderBits(bl, nb, 0, 0), 3 * nb, v2, n2);
    HeaderParts(|llens|, |dlens|, nb, bl);
    SendTree(out, bl, codes, llens);
    ghost var v3, n3 := out.Value(), out.Length();
    SendTree(out, bl, codes, dlens);
    ghost var v4, n4 := out.Value(), out.Length();
    SentMore(v2, n2, bl, codes, TreeItems(llens), v3, n3, TreeItems(dlens), v4, n4);
    ghost var items := TreeItems(llens) + TreeItems(dlens);
    SentItems(v2, n2, bl, codes, items, v4, n4);
    SentThen(v, n, HeaderBits(|llens|, |dlens|, nb, bl, 0), 14 + 3 * nb, v2, n2,
      ItemsBits(bl, codes, items, 0), ItemsLength(bl, items), v4, n4);
    HeaderRest(|llens|, |dlens|, nb, bl, ItemsBits(bl, codes, items, 0));
  }

  lemma SentItems(v: nat, n: nat, bl: seq<nat>, codes: seq<nat>, items: seq<Item>, value: nat, length: nat)
    requires SentAfter(v, n, bl, codes, items, value, length)
    ensures |bl| == |codes| == 19 && ItemsOK(items)
    ensures SentNumber(v, n, ItemsBits(bl, codes, items, 0), ItemsLength(bl, items), value, length)
  {
  }

  lemma HeaderParts(nl: nat, nd: nat, nb: nat, bl: seq<nat>)
    requires nl >= 257 && nd >= 1 && 4 <= nb <= 19 && |bl| == 19
    ensures nl - 257 + Shl(nd - 1 + Shl(nb - 4, 5), 5) + Shl(OrderBits(bl, nb, 0, 0), 14) == HeaderBits(nl, nd, nb, bl, 0)
  {
    hide Shl, OrderBits;
    var o := OrderBits(bl, nb, 0, 0);
    ShlShl(o, 4, 5);
    ShlShl(o, 9, 5);
    ShlAdd(nb - 4, Shl(o, 4), 5);
    ShlAdd(nd - 1 + Shl(nb - 4, 5), Shl(o, 9), 5);
  }
}
