/** The decoder's side of the code lengths: the CODELENS state of inflate. */
module CodeLensDecoder {
  import opened Wrappers
  import opened Bits
  import opened BitStream
  import opened BitInput
  import opened InflateWindow
  import opened InflateCalls
  import History
  import opened CodeLengths
  import opened TreeSender
  import opened Huffman
  import opened InflateTable
  import opened BlockDecoder

  // ---------- finding the next symbol ----------

  /** A table for a code of 19 symbols, without sub-tables. */
  ghost predicate CodesTable(w: nat, bl: seq<nat>, table: map<nat, Entry>, root: nat) {
    |bl| == 19 && TableFor(w, CODES, bl, table, root) && RootShape(table)
  }

  function EntryAt(table: map<nat, Entry>, root: nat, h: nat): Entry {
    Get(table, Low(h, root))
  }

  lemma EntryShape(w: nat, bl: seq<nat>, table: map<nat, Entry>, root: nat, h: nat)
    requires CodesTable(w, bl, table, root)
    ensures var e := EntryAt(table, root, h); Lookup(table, root, h) == (e, e.bits) && 1 <= e.bits <= 15 && e.val <= 18
  {
    hide Low, BeginsWith;
    LookupShape(w, CODES, bl, table, root, h);
    assert !Pointer(Get(table, Low(h, root)));
    if BeginsWithCode(w, bl, h) {
      var n: nat :| n < |bl| && BeginsWith(w, bl, h, n);
      assert Decodes(table, root, h, CODES, n, bl[n]);
    }
  }

  /** The symbol whose code comes next. */
  lemma EntryOf(w: nat, bl: seq<nat>, table: map<nat, Entry>, root: nat, h: nat, n: nat)
    requires CodesTable(w, bl, table, root) && n < 19 && BeginsWith(w, bl, h, n)
    ensures var (e, len) := Lookup(table, root, h); e.val == n && len == bl[n]
  {
    hide Low, CodeOf, Lookup;
    assert Decodes(table, root, h, CODES, n, bl[n]);
  }

  /** The entry found with the bits at hand is right if it uses no more than those, and if
      the code is among them it is found. */
  lemma EntryRight(rd: BitReader, w: nat, bl: seq<nat>, table: map<nat, Entry>, root: nat)
    requires rd.Valid() && CodesTable(w, bl, table, root)
    ensures var e := EntryAt(table, root, rd.hold); var (f, m) := Lookup(table, root, rd.Value());
            && 1 <= e.bits <= 15 && e.val <= 18 && f.val <= 18
            && (e.bits <= rd.bits ==> e.val == f.val && e.bits == m)
            && (m <= rd.bits ==> e.bits <= rd.bits)
  {
    hide Lookup, Low, Shl, Pow2, TableFor, EntryAt;
    EntryShape(w, bl, table, root, rd.hold);
    EntryShape(w, bl, table, root, rd.Value());
    ghost var high := Stream(rd.input[rd.pos..]);
    if Lookup(table, root, rd.hold).1 <= rd.bits {
      EnoughBits(w, CODES, bl, table, root, rd.hold, rd.bits, high);
    }
    if Lookup(table, root, rd.Value()).1 <= rd.bits {
      EnoughFound(w, CODES, bl, table, root, rd.hold, rd.bits, high);
    }
  }

  /** How many bits the next symbol takes, with its extra bits. */
  ghost function SymbolNeeds(table: map<nat, Entry>, root: nat, v: nat): nat {
    var (e, n) := Lookup(table, root, v);
    n + ExtraBits(e.val)
  }

  // ---------- what is expected ----------

  /** The next bits are those of the symbols in items, followed by rest, of which there are
      at least after bits; together with the lengths so far they expand to target. */
  ghost predicate Expected(w: nat, bl: seq<nat>, codes: seq<nat>, items: seq<Item>, rest: nat, after: nat,
                           value: nat, avail: nat, lens: seq<nat>, target: seq<nat>) {
    && |bl| == |codes| == 19 && LensOK(w, bl) && ItemsOK(items) && Codes(bl, codes)
    && (forall i {:trigger items[i]} :: 0 <= i < |items| ==> bl[items[i].sym] > 0 && codes[items[i].sym] == CodeOf(w, bl, items[i].sym))
    && value == ItemsBits(bl, codes, items, rest) && ItemsLength(bl, items) + after <= avail
    && ExpandAll(lens, items) == Some(target)
  }

  lemma ExpectedFirst(w: nat, bl: seq<nat>, codes: seq<nat>, items: seq<Item>, rest: nat, after: nat,
                      value: nat, avail: nat, lens: seq<nat>, target: seq<nat>)
    requires Expected(w, bl, codes, items, rest, after, value, avail, lens, target) && items != []
    ensures |bl| == |codes| == 19 && ItemOK(items[0]) && items[0].sym < 19 && LensOK(w, bl)
    ensures var it := items[0]; var l, e := bl[it.sym], ExtraBits(it.sym);
            && BeginsWith(w, bl, value, it.sym) && l + e <= avail
            && Expand(lens, it).Some?
            && Low(Shr(value, l), e) == it.extra
            && Expected(w, bl, codes, items[1..], rest, after, Shr(Shr(value, l), e), avail - l - e, Expand(lens, it).value, target)
  {
    hide Shl, Shr, Low, Expand, BeginsWith, CodeOf, Pow2;
    var it := items[0];
    var l, e := bl[it.sym], ExtraBits(it.sym);
    var tail := ItemsBits(bl, codes, items[1..], rest);
    ExtraFits(it);
    LowAddShl(it.extra, tail, e);
    LowAddShl(codes[it.sym], it.extra + Shl(tail, e), l);
    SentBeginsWith(w, bl, it.sym, it.extra + Shl(tail, e));
  }

  /** Every symbol adds at least one length. */
  lemma {:induction false} ExpandGrows(lens: seq<nat>, items: seq<Item>)
    requires ExpandAll(lens, items).Some?
    ensures |ExpandAll(lens, items).value| >= |lens| + |items|
    ensures items == [] ==> ExpandAll(lens, items).value == lens
    ensures forall i {:trigger ExpandAll(lens, items).value[i]} {:trigger lens[i]} :: 0 <= i < |lens| ==> ExpandAll(lens, items).value[i] == lens[i]
    decreases |items|
  {
    if items != [] {
      ExpandGrows(Expand(lens, items[0]).value, items[1..]);
    }
  }

  lemma ExpectedSize(w: nat, bl: seq<nat>, codes: seq<nat>, items: seq<Item>, rest: nat, after: nat,
                     value: nat, avail: nat, lens: seq<nat>, target: seq<nat>)
    requires Expected(w, bl, codes, items, rest, after, value, avail, lens, target)
    ensures |lens| + |items| <= |target|
    ensures items == [] ==> lens == target && value == rest && after <= avail
  {
    hide ExpandAll, Codes, CodeOf;
    ExpandGrows(lens, items);
  }

  // ---------- the state ----------

  datatype Status = Done | NeedInput | Bad

  /** The next symbol of the code, without using it up. */
  method NextEntry(rd: BitReader, table: map<nat, Entry>, root: nat, ghost w: nat, ghost bl: seq<nat>) returns (ok: bool, e: Entry)
    requires rd.Valid() && rd.bits <= 24 && CodesTable(w, bl, table, root)
    modifies rd`pos, rd`hold, rd`bits
    ensures rd.Valid() && rd.Value() == old(rd.Value()) && rd.Avail() == old(rd.Avail()) && rd.bits <= 24
    ensures var (f, m) := Lookup(table, root, old(rd.Value()));
            && (rd.bits <= old(rd.bits) || rd.bits < m + 8)
            && (ok ==> e.bits == m <= rd.bits && e.val == f.val && e.val <= 18 && e.bits <= 15)
            && (!ok ==> rd.pos == rd.limit && rd.bits < m)
  {
    hide Lookup, Low, Shl, Stream, Pow2, CodesTable, EntryAt;
    while true
      invariant rd.Valid() && rd.bits <= 24
      invariant rd.Value() == old(rd.Value()) && rd.Avail() == old(rd.Avail())
      invariant rd.bits <= old(rd.bits) || rd.bits < Lookup(table, root, old(rd.Value())).1 + 8
      decreases rd.limit - rd.pos
    {
      e := EntryAt(table, root, rd.hold);
      EntryRight(rd, w, bl, table, root);
      if e.bits <= rd.bits {
        return true, e;
      }
      ok := rd.PullByte();
      if !ok {
        return false, e;
      }
    }
  }

  /** Adds n copies of len. */
  method Copies(lens0: seq<nat>, len: nat, n: nat) returns (lens: seq<nat>)
    ensures lens == lens0 + Repeat(len, n)
  {
    lens := lens0;
    var copy := n;
    while copy != 0
      invariant 0 <= copy <= n && lens == lens0 + Repeat(len, n - copy)
    {
      assert Repeat(len, n - copy) + [len] == Repeat(len, n - copy + 1);
      lens := lens + [len];
      copy := copy - 1;
    }
  }

  /** The length that is repeated and how often, for one of the three symbols that repeat. */
  method ReadRun(rd: BitReader, sym: nat, lens: seq<nat>) returns (ok: bool, len: nat, copy: nat)
    requires rd.Valid() && 16 <= sym <= 18 && ExtraBits(sym) <= rd.bits <= 24
    modifies rd`pos, rd`hold, rd`bits
    ensures rd.Valid() && rd.bits <= old(rd.bits) && rd.Avail() <= old(rd.Avail())
    ensures var b := ExtraBits(sym); var x := Low(old(rd.Value()), b);
            match Expand(lens, Item(sym, x))
            case None => !ok
            case Some(longer) =>
              && ok && longer == lens + Repeat(len, copy) && copy > 0 && (len == 0 || len in lens)
              && rd.Value() == Shr(old(rd.Value()), b) && rd.Avail() + b == old(rd.Avail()) && rd.bits == old(rd.bits) - b
  {
    hide Low, Shl, Shr, Stream, Pow2, Repeat;
    ok, len, copy := true, 0, 0;
    if sym == 16 {
      if |lens| == 0 {
        return false, len, copy;
      }
      len := lens[|lens| - 1];
      copy := rd.Peek(2);
      copy := 3 + copy;
      rd.DropBits(2);
    } else if sym == 17 {
      copy := rd.Peek(3);
      copy := 3 + copy;
      rd.DropBits(3);
    } else {
      copy := rd.Peek(7);
      copy := 11 + copy;
      rd.DropBits(7);
    }
  }

  /** A symbol has been found in the table and is used up, with its extra bits. */
  method UseSymbol(rd: BitReader, e: Entry, lens0: seq<nat>, total: nat) returns (status: Status, lens: seq<nat>)
    requires rd.Valid() && e.bits <= rd.bits <= 24 && e.val <= 18 && e.bits <= 15 && |lens0| < total
    modifies rd`pos, rd`hold, rd`bits
    ensures rd.Valid() && rd.bits <= 24 && rd.Avail() <= old(rd.Avail())
    ensures status.Done? ==> |lens0| < |lens| <= total && (old(rd.bits) < e.bits + ExtraBits(e.val) + 8 ==> rd.bits < 8)
    ensures LensOK(15, lens0) ==> LensOK(15, lens)
    ensures status.NeedInput? ==> rd.Value() == old(rd.Value()) && rd.Avail() == old(rd.Avail()) && lens == lens0
                                  && rd.pos == rd.limit && rd.bits < e.bits + ExtraBits(e.val)
    ensures var x := Shr(old(rd.Value()), e.bits); var b := ExtraBits(e.val);
            if e.bits + b > old(rd.Avail()) then status == NeedInput
            else match Expand(lens0, Item(e.val, Low(x, b)))
              case None => status == Bad
              case Some(longer) =>
                if |longer| > total then status == Bad
                else status == Done && lens == longer && rd.Value() == Shr(x, b) && rd.Avail() + e.bits + b == old(rd.Avail())
  {
    hide Low, Shl, Shr, Stream, Pow2;
    lens := lens0;
    if e.val < 16 {
      NoExtra(Shr(rd.Value(), e.bits));
      rd.DropBits(e.bits);
      lens := lens + [e.val];
      return Done, lens;
    }
    var len, copy;
    var b := ExtraBits(e.val);
    var ok := rd.NeedBits(e.bits + b);
    if !ok {
      return NeedInput, lens;
    }
    rd.DropBits(e.bits);
    ok, len, copy := ReadRun(rd, e.val, lens);
    if !ok {
      return Bad, lens;
    }
    if |lens| + copy > total {
      return Bad, lens;
    }
    lens := Copies(lens, len, copy);
    return Done, lens;
  }

  lemma NoExtra(x: nat)
    ensures Low(x, 0) == 0 && Shr(x, 0) == x
  {
  }

  /** One symbol, if there is enough input for it. A byte is taken only when it is needed. */
  method TrySymbol(rd: BitReader, table: map<nat, Entry>, root: nat, total: nat, lens0: seq<nat>, ghost w: nat, ghost bl: seq<nat>, ghost good: bool,
                   ghost codes: seq<nat>, ghost todo: seq<Item>, ghost rest: nat, ghost after: nat, ghost target: seq<nat>)
    returns (status: Status, lens: seq<nat>)
    requires rd.Valid() && rd.bits <= 24 && CodesTable(w, bl, table, root) && |lens0| < total
    requires Lean(rd.bits, SymbolNeeds(table, root, rd.Value()))
    requires good ==> |target| == total && Expected(w, bl, codes, todo, rest, after, rd.Value(), rd.Left(), lens0, target)
    modifies rd`pos, rd`hold, rd`bits
    ensures rd.Valid() && rd.bits <= 24 && rd.Left() <= old(rd.Left())
    ensures status == Done ==> |lens0| < |lens| <= total && rd.bits < 8
    ensures LensOK(15, lens0) ==> LensOK(15, lens)
    ensures status == NeedInput ==> lens == lens0 && rd.pos == rd.limit && rd.Value() == old(rd.Value()) && rd.Left() == old(rd.Left())
                                    && rd.bits < SymbolNeeds(table, root, rd.Value())
    ensures good ==> status != Bad && (status == NeedInput ==> rd.limit < |rd.input|)
    ensures good && status == Done ==> todo != [] && Expected(w, bl, codes, todo[1..], rest, after, rd.Value(), rd.Left(), lens, target)
  {
    hide Low, Shl, Shr, Stream, Pow2, CodesTable, Expected, BeginsWith, ExpandAll, Expand, ItemOK, Lookup;
    ghost var v, n := rd.Value(), rd.Left();
    lens := lens0;
    if good {
      ExpectedSize(w, bl, codes, todo, rest, after, v, n, lens, target);
      ExpectedFirst(w, bl, codes, todo, rest, after, v, n, lens, target);
      ghost var it := todo[0];
      ghost var l, x := bl[it.sym], ExtraBits(it.sym);
      EntryOf(w, bl, table, root, v, it.sym);
      ExpectedSize(w, bl, codes, todo[1..], rest, after, Shr(Shr(v, l), x), n - l - x, Expand(lens, it).value, target);
    }
    var ok, e := NextEntry(rd, table, root, w, bl);
    status := NeedInput;
    if ok {
      if good {
        assert todo[0] == Item(e.val, Low(Shr(v, e.bits), ExtraBits(e.val)));
      }
      status, lens := UseSymbol(rd, e, lens, total);
    }
  }

  /** Decodes total code lengths, over calls with any amounts of input; less than a byte is
      left at hand. When the next bits are those sent for a table of lengths, it finds exactly
      that table and stops right after its bits. */
  method CodeLens(rd: BitReader, z: Inflater, calls: seq<Call>, j0: nat, table: map<nat, Entry>, root: nat, total: nat,
                  ghost w: nat, ghost bl: seq<nat>, ghost codes: seq<nat>, ghost items: seq<Item>, ghost rest: nat, ghost after: nat, ghost target: seq<nat>)
    returns (status: Status, lens: seq<nat>, j: nat)
    requires rd.Valid() && z.Valid() && rd.bits < 8 && CodesTable(w, bl, table, root) && Given(rd, z, calls, j0)
    modifies rd, z, z.window
    ensures rd.Valid() && rd.bits <= 24 && z.Valid() && (z.out == old(z.out) || fresh(z.out)) && j0 <= j && Given(rd, z, calls, j)
    ensures z.Output() == old(z.Output()) && rd.Left() <= old(rd.Left())
    ensures status == Done ==> |lens| == total && LensOK(15, lens) && rd.bits < 8
    ensures status == NeedInput ==> j == |calls| && rd.pos == rd.limit
    ensures |target| == total && Expected(w, bl, codes, items, rest, after, old(rd.Value()), old(rd.Left()), [], target) ==>
              && status != Bad && (status == NeedInput ==> rd.limit < |rd.input|)
              && (status == Done ==> lens == target && rd.Value() == rest && after <= rd.Left())
  {
    hide Shl, Stream, Pow2, CodesTable, Expected, History.WindowHolds, SymbolNeeds;
    ghost var good := |target| == total && Expected(w, bl, codes, items, rest, after, rd.Value(), rd.Left(), [], target);
    ghost var todo := items;
    lens, j := [], j0;
    while |lens| < total
      invariant rd.Valid() && rd.bits <= 24 && z.Valid() && (z.out == old(z.out) || fresh(z.out)) && j0 <= j && Given(rd, z, calls, j) && |lens| <= total
      invariant z.Output() == old(z.Output()) && rd.Left() <= old(rd.Left())
      invariant LensOK(15, lens) && Lean(rd.bits, SymbolNeeds(table, root, rd.Value())) && (|lens| == total ==> rd.bits < 8)
      invariant good ==> Expected(w, bl, codes, todo, rest, after, rd.Value(), rd.Left(), lens, target)
      decreases total - |lens|, |calls| - j
    {
      status, lens := TrySymbol(rd, table, root, total, lens, w, bl, good, codes, todo, rest, after, target);
      if status == Bad {
        return;
      }
      if status == NeedInput {
        var ok;
        ok, j := NextCall(rd, z, calls, j);
        if !ok {
          return;
        }
      } else if good {
        todo := todo[1..];
      }
    }
    status := Done;
    if good {
      ExpectedSize(w, bl, codes, todo, rest, after, rd.Value(), rd.Left(), lens, target);
    }
  }
}
