/** A stream of blocks with dynamic trees, from literals and matches to bytes and, over any
    calls of inflate, back to the output. */
module BlockStream {
  import opened Bits
  import opened BitStream
  import opened BitInput
  import opened Huffman
  import opened InflateTable
  import opened History
  import opened InflateWindow
  import opened InflateCalls
  import opened LengthCodes
  import opened BlockDecoder
  import opened BlockEncoder
  import opened BlockSymbols
  import opened DynamicBlock
  import opened FastDecode
  import opened SlowDecode
  import CodeLengths
  import CodeLensDecoder
  import DynamicTrees
  import TreeReader
  import TreeSender

  // ---------- the encoder ----------

  /** The blocks with their trees; only the last one is marked as such. */
  ghost predicate StreamFor(w: nat, bs: seq<Block>, blocks: seq<seq<Op>>) {
    |bs| == |blocks| && forall i {:trigger bs[i]} :: 0 <= i < |bs| ==>
      BlockOK(w, bs[i]) && bs[i].tokens == blocks[i] && (bs[i].last <==> i == |bs| - 1)
  }

  ghost predicate BlocksOK(w: nat, bs: seq<Block>) {
    forall i {:trigger bs[i]} :: 0 <= i < |bs| ==> BlockOK(w, bs[i])
  }

  ghost function StreamBits(w: nat, bs: seq<Block>, rest: nat): nat
    requires BlocksOK(w, bs)
    decreases |bs|
  {
    if bs == [] then rest else BlockBits(w, bs[0], StreamBits(w, bs[1..], rest))
  }

  ghost function StreamSize(w: nat, bs: seq<Block>): nat
    requires BlocksOK(w, bs)
    decreases |bs|
  {
    if bs == [] then 0 else BlockSize(w, bs[0]) + StreamSize(w, bs[1..])
  }

  /** One more block at the end. */
  lemma {:induction false} StreamAppend(w: nat, bs: seq<Block>, b: Block, rest: nat)
    requires BlocksOK(w, bs) && BlockOK(w, b)
    ensures BlocksOK(w, bs + [b]) && StreamSize(w, bs + [b]) == StreamSize(w, bs) + BlockSize(w, b)
    ensures StreamBits(w, bs + [b], rest) == StreamBits(w, bs, 0) + Shl(BlockBits(w, b, rest), StreamSize(w, bs))
    decreases |bs|
  {
    hide BlockBits, BlockSize, BlockOK, Shl;
    var all := bs + [b];
    if bs == [] {
      assert all == [b] && all[1..] == [];
      ShlNone(BlockBits(w, b, rest));
    } else {
      assert all[1..] == bs[1..] + [b];
      StreamAppend(w, bs[1..], b, rest);
      var x, n := StreamBits(w, bs[1..], 0), StreamSize(w, bs[1..]);
      BlockThen(w, bs[0], x);
      BlockThen(w, bs[0], x + Shl(BlockBits(w, b, rest), n));
      ShlAdd(x, Shl(BlockBits(w, b, rest), n), BlockSize(w, bs[0]));
      ShlShl(BlockBits(w, b, rest), n, BlockSize(w, bs[0]));
    }
  }

  /** The bytes of a stream. */
  ghost predicate StreamSent(w: nat, bs: seq<Block>, blocks: seq<seq<Op>>, bytes: seq<Byte>) {
    StreamFor(w, bs, blocks) && BlocksOK(w, bs) && Stream(bytes) == StreamBits(w, bs, 0) && StreamSize(w, bs) <= 8 * |bytes|
  }

  /** The tables of lengths and distances. */
  method StaticTables() returns (m: Maps, lbase: seq<nat>, dbase: seq<nat>)
    ensures MapsOK(m)
    ensures |lbase| == 29 && (forall c {:trigger lbase[c]} :: 0 <= c < 28 ==> lbase[c] == LengthBase(c))
    ensures |dbase| == 30 && (forall c {:trigger dbase[c]} :: 0 <= c < 30 ==> dbase[c] == DistBase(c))
  {
    hide CoversLength, CoversDist, LengthBase, DistBase;
    var lcode, dcode;
    lcode, lbase := InitLengths();
    dcode, dbase := InitDists();
    m := Maps(lcode, dcode);
  }

  /** Sends all blocks. */
  method EncodeStream(w: nat, blocks: seq<seq<Op>>) returns (bytes: seq<Byte>, ghost bs: seq<Block>)
    requires w == 15 && forall i {:trigger blocks[i]} :: 0 <= i < |blocks| ==> TokensOK(blocks[i])
    ensures StreamSent(w, bs, blocks, bytes)
  {
    hide MapsOK, LengthBase, DistBase, BlockOK, BlockBits, BlockSize, StreamBits, StreamSize, Stream, Shl, TokensOK;
    var m, lbase, dbase := StaticTables();
    var out := new BitWriter();
    bs := [];
    StreamNone(w);
    SentNothing(0, 0);
    for i := 0 to |blocks|
      invariant fresh(out) && out.Valid() && |bs| == i && BlocksOK(w, bs)
      invariant forall k {:trigger bs[k]} :: 0 <= k < i ==> bs[k].tokens == blocks[k] && (bs[k].last <==> k == |blocks| - 1)
      invariant SentNumber(0, 0, StreamBits(w, bs, 0), StreamSize(w, bs), out.Value(), out.Length())
    {
      ghost var v, n := out.Value(), out.Length();
      var b := EncodeBlock(out, w, blocks[i], i == |blocks| - 1, m, lbase, dbase);
      StreamAppend(w, bs, b, 0);
      SentThen(0, 0, StreamBits(w, bs, 0), StreamSize(w, bs), v, n, BlockBits(w, b, 0), BlockSize(w, b), out.Value(), out.Length());
      bs := bs + [b];
    }
    ShlNone(StreamBits(w, bs, 0));
    out.BiWindup();
    bytes := out.pending;
  }

  lemma StreamNone(w: nat)
    ensures StreamBits(w, [], 0) == 0 && StreamSize(w, []) == 0
  {
  }

  // ---------- the decoder ----------

  lemma MatchingTables(w: nat, t: Tables, l: Alphabet, d: Alphabet)
    requires AlphabetOK(w, l) && AlphabetOK(w, d) && TablesFor(t, w, l.lens, d.lens)
    ensures TablesMatch(w, t, l, d)
  {
  }

  /** The fast loop decoded n symbols of what is ahead. */
  lemma FastAhead(w: nat, t: Tables, m: Maps, l: Alphabet, d: Alphabet, todo: seq<Op>, rest: nat, wmax: nat,
                  v: nat, h: seq<Byte>, target: seq<Byte>, lost: nat, n: nat)
    requires TablesMatch(w, t, l, d) && TokensAhead(m, l, d, todo, rest, wmax, v, h, target) && Reach(lost, h, wmax)
    requires n >= 1 && Steps(t, lost, Progress(LEN, v, h), n - 1).mode == LEN
    ensures AllUsable(m, l, d, todo) && Has(l, END_BLOCK) && n <= |todo| + 1
    ensures var p := Steps(t, lost, Progress(LEN, v, h), n); var used := StepsBits(t, lost, Progress(LEN, v, h), n);
            && (n == |todo| + 1 ==> p == Progress(TYPE, rest, target) && used == BlockLength(m, l, d, todo))
            && (n <= |todo| ==> && p.mode == LEN && TokensAhead(m, l, d, todo[n..], rest, wmax, p.value, p.output, target)
                                && used + BlockLength(m, l, d, todo[n..]) == BlockLength(m, l, d, todo))
  {
    hide TokensAhead, TablesMatch, Reach, Next, BlockLength, Steps, StepsBits;
    if n > |todo| + 1 {
      BlockEnds(w, t, m, l, d, todo, rest, wmax, v, h, target, lost, n - 1);
    } else {
      BlockDecodes(w, t, m, l, d, todo, rest, wmax, v, h, target, lost, n);
    }
  }

  /** The tokens are still to be decoded, or all are and the block has ended; after at least
      so many bits are left. */
  ghost predicate Goal(w: nat, t: Tables, m: Maps, l: Alphabet, d: Alphabet, todo: seq<Op>, rest: nat, after: nat, wmax: nat, target: seq<Byte>,
                       p: Progress, left: nat) {
    && TablesMatch(w, t, l, d)
    && if p.mode == LEN then
         TokensAhead(m, l, d, todo, rest, wmax, p.value, p.output, target) && BlockLength(m, l, d, todo) + after <= left
       else p == Progress(TYPE, rest, target) && after <= left
  }

  lemma GoalFast(w: nat, t: Tables, m: Maps, l: Alphabet, d: Alphabet, todo: seq<Op>, rest: nat, after: nat, wmax: nat, target: seq<Byte>,
                 p: Progress, left: nat, lost: nat, n: nat, left': nat) returns (todo': seq<Op>)
    requires Goal(w, t, m, l, d, todo, rest, after, wmax, target, p, left) && p.mode == LEN && Reach(lost, p.output, wmax)
    requires n >= 1 && Steps(t, lost, p, n - 1).mode == LEN && left' + StepsBits(t, lost, p, n) == left
    ensures Goal(w, t, m, l, d, todo', rest, after, wmax, target, Steps(t, lost, p, n), left')
  {
    hide TokensAhead, TablesMatch, Reach, BlockLength, Steps, StepsBits;
    FastAhead(w, t, m, l, d, todo, rest, wmax, p.value, p.output, target, lost, n);
    todo' := if n <= |todo| then todo[n..] else [];
  }

  lemma GoalSlow(w: nat, t: Tables, m: Maps, l: Alphabet, d: Alphabet, todo: seq<Op>, rest: nat, after: nat, wmax: nat, target: seq<Byte>,
                 p: Progress, left: nat, lost: nat) returns (todo': seq<Op>)
    requires Goal(w, t, m, l, d, todo, rest, after, wmax, target, p, left) && p.mode == LEN && Reach(lost, p.output, wmax)
    ensures SymbolBits(t, p.value) <= left
    ensures Goal(w, t, m, l, d, todo', rest, after, wmax, target, Next(t, lost, p), left - SymbolBits(t, p.value))
    ensures Decode(t, p.value).0.Pair? ==> Decode(t, p.value).0.dist <= wmax
    ensures Next(t, lost, p).output <= target
  {
    hide TokensAhead, TablesMatch, Reach, BlockLength, Next, SymbolBits, Decode;
    AheadNext(w, t, m, l, d, todo, rest, wmax, p.value, p.output, target, lost);
    todo' := if todo == [] then [] else todo[1..];
  }

  /** One turn at the LEN state: some symbols fast where there is enough input and room,
      and else one by the states that take input as it is needed. */
  method DecodeSome(rd: BitReader, z: Inflater, calls: seq<Call>, j0: nat, t: Tables, ghost w: nat, ghost llens: seq<nat>, ghost dlens: seq<nat>,
                    ghost good: bool, ghost m: Maps, ghost l: Alphabet, ghost d: Alphabet, ghost todo: seq<Op>, ghost rest: nat, ghost after: nat, ghost target: seq<Byte>)
    returns (r: StepEnd, mode: Mode, j: nat, ghost todo': seq<Op>)
    requires rd.Valid() && z.Valid() && rd.bits <= 24 && TablesFor(t, w, llens, dlens) && Given(rd, z, calls, j0)
    requires Lean(rd.bits, LengthCodeBits(t, rd.Value()))
    requires good ==> Goal(w, t, m, l, d, todo, rest, after, z.window.Length, target, Here(rd, z, LEN), rd.Left())
    modifies rd, z, z.window, z.out
    ensures rd.Valid() && z.Valid() && rd.bits <= 24 && (z.out == old(z.out) || fresh(z.out)) && j0 <= j <= |calls| && Given(rd, z, calls, j)
    ensures r == Stepped ==> rd.bits < 8 && rd.Left() < old(rd.Left())
    ensures r == Again ==> mode == LEN && j == j0 + 1 && rd.Left() == old(rd.Left()) && Lean(rd.bits, LengthCodeBits(t, rd.Value()))
    ensures r == NoCalls ==> j == |calls|
    ensures good ==> && r != StuckMatch
                     && (r == Stepped || r == Again ==> Goal(w, t, m, l, d, todo', rest, after, z.window.Length, target, Here(rd, z, mode), rd.Left()))
                     && (r == NoCalls ==> z.Output() <= target && (z.put == z.out.Length || rd.limit < |rd.input|))
  {
    hide Stream, Shl, Pow2, WindowHolds, TablesFor, Goal, Steps, StepsBits, Next, SymbolBits, Decode, Reach, LengthCodeBits, GivenInput;
    ghost var p, left := Here(rd, z, LEN), rd.Left();
    GivenBound(rd, z, calls, j0);
    CodeTakes(t, w, llens, dlens, rd.Value());
    CodeAndMore(t, rd.Value());
    j, todo' := j0, todo;
    if rd.pos + 6 <= rd.limit && z.put + 258 <= z.out.Length {
      LostReach(z);
      ghost var n;
      mode, n := InflateFast(rd, z, t, w, llens, dlens);
      r := Stepped;
      if good {
        todo' := GoalFast(w, t, m, l, d, todo, rest, after, z.window.Length, target, p, left, Lost(z), n, rd.Left());
      }
    } else {
      ghost var lost;
      r, mode, j, lost := SlowStep(rd, z, calls, j, t, w, llens, dlens);
      GivenBound(rd, z, calls, j);
      if good && r != Again {
        todo' := GoalSlow(w, t, m, l, d, todo, rest, after, z.window.Length, target, p, left, lost);
      }
    }
  }

  lemma GivenBound(rd: BitReader, z: Inflater, calls: seq<Call>, j: nat)
    requires Given(rd, z, calls, j)
    ensures j <= |calls|
  {
  }

  /** Decodes the symbols of a block, over any calls. */
  method DecodeSymbols(rd: BitReader, z: Inflater, calls: seq<Call>, j0: nat, t: Tables, ghost w: nat, ghost llens: seq<nat>, ghost dlens: seq<nat>,
                       ghost m: Maps, ghost l: Alphabet, ghost d: Alphabet, ghost tokens: seq<Op>, ghost rest: nat, ghost after: nat, ghost target: seq<Byte>)
    returns (r: StepEnd, mode: Mode, j: nat)
    requires rd.Valid() && z.Valid() && rd.bits < 8 && TablesFor(t, w, llens, dlens) && Given(rd, z, calls, j0)
    modifies rd, z, z.window, z.out
    ensures rd.Valid() && z.Valid() && (z.out == old(z.out) || fresh(z.out)) && j0 <= j && Given(rd, z, calls, j)
    ensures r != Again && (r == Stepped ==> mode != LEN && rd.bits < 8 && rd.Left() < old(rd.Left()))
    ensures r == NoCalls ==> j == |calls|
    ensures Goal(w, t, m, l, d, tokens, rest, after, z.window.Length, target, old(Here(rd, z, LEN)), old(rd.Left())) ==>
              && r != StuckMatch
              && (r == Stepped ==> mode == TYPE && rd.Value() == rest && after <= rd.Left() && z.Output() == target)
              && (r == NoCalls ==> z.Output() <= target && (z.put == z.out.Length || rd.limit < |rd.input|))
  {
    hide Stream, Shl, Pow2, WindowHolds, TablesFor, Goal, LengthCodeBits, Given;
    ghost var good := Goal(w, t, m, l, d, tokens, rest, after, z.window.Length, target, Here(rd, z, LEN), rd.Left());
    ghost var todo := tokens;
    mode, j := LEN, j0;
    GivenBound(rd, z, calls, j);
    while mode == LEN
      invariant rd.Valid() && z.Valid() && rd.bits <= 24 && (z.out == old(z.out) || fresh(z.out)) && j0 <= j <= |calls| && Given(rd, z, calls, j)
      invariant if mode == LEN then Lean(rd.bits, LengthCodeBits(t, rd.Value())) else rd.bits < 8
      invariant rd.Left() <= old(rd.Left()) && (mode != LEN ==> rd.Left() < old(rd.Left()))
      invariant good ==> Goal(w, t, m, l, d, todo, rest, after, z.window.Length, target, Here(rd, z, mode), rd.Left())
      decreases rd.Left(), |calls| - j
    {
      r, mode, j, todo := DecodeSome(rd, z, calls, j, t, w, llens, dlens, good, m, l, d, todo, rest, after, target);
      if r == NoCalls || r == StuckMatch {
        return;
      }
    }
    r := Stepped;
    if good {
      GoalReached(w, t, m, l, d, todo, rest, after, z.window.Length, target, Here(rd, z, mode), rd.Left());
    }
  }

  lemma GoalReached(w: nat, t: Tables, m: Maps, l: Alphabet, d: Alphabet, todo: seq<Op>, rest: nat, after: nat, wmax: nat, target: seq<Byte>,
                    p: Progress, left: nat)
    requires Goal(w, t, m, l, d, todo, rest, after, wmax, target, p, left) && p.mode != LEN
    ensures p == Progress(TYPE, rest, target) && after <= left
  {
  }

  /** How a block ends: it was decoded, there are no more calls, it is not valid, or it is
      stored or has the fixed trees. */
  datatype BlockEnd = Ended | Starved | Broken | OtherKind

  /** Builds both tables of a block. They fit the space there is, whatever the lengths are. */
  method BuildTables(w: nat, lens: seq<nat>, nlen: nat) returns (ok: bool, t: Tables, used: nat)
    requires 1 <= w <= 15 && LensOK(w, lens) && nlen <= |lens| && nlen <= 288 && |lens| - nlen <= 32
    ensures ok <==> Acceptable(w, lens[..nlen], LENS) && Acceptable(w, lens[nlen..], DISTS)
    ensures ok ==> TablesFor(t, w, lens[..nlen], lens[nlen..]) && used <= ENOUGH
  {
    hide Acceptable, TableFor;
    var ret, ltable, lenbits, lused := BuildTable(w, LENS, lens[..nlen], 9);
    if ret != 0 {
      return false, Tables(map[], 0, map[], 0), 0;
    }
    var dret, dtable, distbits, dused := BuildTable(w, DISTS, lens[nlen..], 6);
    if dret != 0 {
      return false, Tables(map[], 0, map[], 0), lused;
    }
    return true, Tables(ltable, lenbits, dtable, distbits), lused + dused;
  }

  /** The type of the next block. */
  method ReadType(rd: BitReader, z: Inflater, calls: seq<Call>, j0: nat) returns (ok: bool, last: bool, kind: nat, j: nat)
    requires rd.Valid() && z.Valid() && rd.bits < 8 && Given(rd, z, calls, j0)
    modifies rd, z, z.window
    ensures rd.Valid() && z.Valid() && (z.out == old(z.out) || fresh(z.out)) && j0 <= j && Given(rd, z, calls, j)
    ensures z.Output() == old(z.Output())
    ensures ok ==> && rd.bits < 8 && rd.Left() + 3 == old(rd.Left()) && rd.Value() == Shr(old(rd.Value()), 3)
                   && last == (Low(old(rd.Value()), 1) == 1) && kind == Low(Shr(old(rd.Value()), 1), 2)
    ensures !ok ==> j == |calls| && (old(rd.Left()) >= 3 ==> rd.limit < |rd.input|)
  {
    hide Low, Shr, Shl, Stream, Pow2, WindowHolds;
    last, kind := false, 0;
    ok, j := NeedOverCalls(rd, z, calls, j0, 3);
    if ok {
      ShrShr(rd.Value(), 1, 2);
      var x := rd.Peek(1);
      last := x == 1;
      rd.DropBits(1);
      kind := rd.Peek(2);
      rd.DropBits(2);
    }
  }

  lemma TypeRead(last: bool, x: nat)
    ensures var v := TypeBits(last) + Shl(x, 3);
            Low(v, 1) == (if last then 1 else 0) && Low(Shr(v, 1), 2) == 2 && Shr(v, 3) == x
  {
    hide Shl;
    TypeFits(last);
    LowAddShl(TypeBits(last), x, 3);
    var v := TypeBits(last) + Shl(x, 3);
    LowLow(v, 3, 1);
    ShrLow(v, 1, 2);
  }

  /** The next bits are those of the block b and then rest, of which there are at least after;
      its tokens can be applied to the output h. */
  ghost predicate BlockAhead(w: nat, b: Block, rest: nat, after: nat, wmax: nat, v: nat, left: nat, h: seq<Byte>) {
    && BlockOK(w, b) && v == BlockBits(w, b, rest) && BlockSize(w, b) + after <= left
    && OpsOK(h, b.tokens) && InWindow(b.tokens, wmax)
  }

  /** What is read first. */
  lemma BlockStarts(w: nat, b: Block, rest: nat, after: nat, wmax: nat, v: nat, left: nat, h: seq<Byte>)
    requires BlockAhead(w, b, rest, after, wmax, v, left, h)
    ensures BlockOK(w, b) && OpsOK(h, b.tokens) && h <= ApplyAll(h, b.tokens) && left >= 3
    ensures Low(v, 1) == (if b.last then 1 else 0) && Low(Shr(v, 1), 2) == 2
    ensures BodyAhead(w, b, rest, after, Shr(v, 3), left - 3)
  {
    hide Low, Shr, Shl, BodyFields, FieldsBits, FieldsLength, OpsOK, ApplyAll, TypeBits, InWindow, BlockOK, HeaderOf, HeaderSize;
    OutputPrefix(h, b.tokens);
    TypeRead(b.last, HeaderOf(w, b, FieldsBits(BodyFields(w, b), rest)));
  }

  /** The next bits are the trees and the symbols of a block. */
  ghost predicate BodyAhead(w: nat, b: Block, rest: nat, after: nat, v: nat, left: nat) {
    && BlockOK(w, b) && v == HeaderOf(w, b, FieldsBits(BodyFields(w, b), rest))
    && HeaderSize(w, b) + FieldsLength(BodyFields(w, b)) + after <= left
  }

  lemma HeaderStarts(w: nat, b: Block, rest: nat, after: nat, v: nat, left: nat)
    requires BodyAhead(w, b, rest, after, v, left)
    ensures BlockOK(w, b)
    ensures TreeReader.HeaderFor(w, b.l.lens, b.d.lens, b.nb, b.bl, b.codes, b.items, FieldsBits(BodyFields(w, b), rest),
                                 FieldsLength(BodyFields(w, b)) + after, v, left)
  {
    hide Shl, BodyFields, FieldsBits, FieldsLength, Acceptable, AllUsable, DynamicTrees.OrderAt, CodeLengths.ExpandAll,
      DynamicTrees.BlTree, TreeSender.ItemsBits, DynamicTrees.HeaderBits, TreeSender.ItemsLength;
  }

  /** Where everything is in a block (section 3.2.7 of RFC 1951): one bit for the last block and two
      for the type, five, five and four for the numbers of lengths, then three bits for each
      length of the code-length code, at its place in the order, and then all other lengths. */
  lemma BlockLayout(w: nat, b: Block, rest: nat)
    requires BlockOK(w, b)
    ensures var v := BlockBits(w, b, rest);
            && Low(v, 1) == (if b.last then 1 else 0) && Low(Shr(v, 1), 2) == 2
            && Low(Shr(v, 3), 5) + 257 == |b.l.lens| && Low(Shr(v, 8), 5) + 1 == |b.d.lens| && Low(Shr(v, 13), 4) + 4 == b.nb
            && (forall s {:trigger b.bl[s]} :: 0 <= s < 19 ==>
                  b.bl[s] == if DynamicTrees.Rank(s) < b.nb then Low(Shr(v, 17 + 3 * DynamicTrees.Rank(s)), 3) else 0)
            && Shr(v, 17 + 3 * b.nb) == TreeSender.ItemsBits(b.bl, b.codes, b.items, FieldsBits(BodyFields(w, b), rest))
  {
    hide Low, Shr, Shl, BodyFields, FieldsBits, FieldsLength, Acceptable, Codable, DynamicTrees.OrderAt, DynamicTrees.OrderBits, CodeLengths.ExpandAll,
      TypeBits, TreeSender.ItemsBits, DynamicTrees.HeaderBits, DynamicTrees.Rank, BlockOK;
    var v, x := BlockBits(w, b, rest), FieldsBits(BodyFields(w, b), rest);
    BlockParams(w, b);
    HeaderItems(w, b, x);
    var items := TreeSender.ItemsBits(b.bl, b.codes, b.items, x);
    TypeRead(b.last, HeaderOf(w, b, x));
    TreeReader.HeaderFields(|b.l.lens|, |b.d.lens|, b.nb, b.bl, items, Shr(v, 3));
    ShrShr(v, 3, 5);
    ShrShr(v, 8, 5);
    ShrShr(v, 13, 4);
    forall s | 0 <= s < 19
      ensures b.bl[s] == if DynamicTrees.Rank(s) < b.nb then Low(Shr(v, 17 + 3 * DynamicTrees.Rank(s)), 3) else 0
    {
      var r := DynamicTrees.Rank(s);
      ShrShr(v, 17, 3 * r);
      if r < b.nb {
        TreeReader.OrderRead(b.bl, b.nb, 0, r, items);
      }
    }
    ShrShr(v, 17, 3 * b.nb);
    TreeReader.OrderRead(b.bl, b.nb, 0, b.nb, items);
  }

  lemma HeaderItems(w: nat, b: Block, x: nat)
    requires BlockOK(w, b)
    ensures |b.bl| == |b.codes| == 19 && 4 <= b.nb <= 19 && LensOK(7, b.bl) && TreeSender.ItemsOK(b.items)
    ensures forall i {:trigger DynamicTrees.OrderAt(i)} :: b.nb <= i < 19 ==> b.bl[DynamicTrees.OrderAt(i)] == 0
    ensures 257 <= |b.l.lens| <= 286 && 1 <= |b.d.lens| <= 30
    ensures HeaderOf(w, b, x) == DynamicTrees.HeaderBits(|b.l.lens|, |b.d.lens|, b.nb, b.bl, TreeSender.ItemsBits(b.bl, b.codes, b.items, x))
  {
    hide DynamicTrees.HeaderBits, TreeSender.ItemsBits, CodeLengths.ExpandAll, DynamicTrees.OrderAt, Acceptable, AllUsable;
  }

  /** What the symbols of the block are decoded from, once its tables are built. */
  lemma SymbolsStart(w: nat, b: Block, rest: nat, after: nat, wmax: nat, h: seq<Byte>, t: Tables, left: nat)
    requires BlockOK(w, b) && OpsOK(h, b.tokens) && InWindow(b.tokens, wmax) && TablesFor(t, w, b.l.lens, b.d.lens)
    requires FieldsLength(BodyFields(w, b)) + after <= left
    ensures Goal(w, t, b.m, b.l, b.d, b.tokens, rest, after, wmax, ApplyAll(h, b.tokens),
                 Progress(LEN, FieldsBits(BodyFields(w, b), rest), h), left)
  {
    hide TablesFor, OpsOK, ApplyAll, FieldsBits, FieldsLength, BlockFields, InWindow, AlphabetOK, AllUsable, BlockOK;
    BlockParams(w, b);
    MatchingTables(w, t, b.l, b.d);
  }

  /** Reads the trees of a block and builds its tables. */
  method DecodeTrees(rd: BitReader, z: Inflater, calls: seq<Call>, j0: nat, w: nat, ghost b: Block, ghost rest: nat, ghost after: nat)
    returns (r: BlockEnd, t: Tables, ghost llens: seq<nat>, ghost dlens: seq<nat>, j: nat)
    requires rd.Valid() && z.Valid() && rd.bits < 8 && w == 15 && Given(rd, z, calls, j0)
    modifies rd, z, z.window
    ensures rd.Valid() && z.Valid() && (z.out == old(z.out) || fresh(z.out)) && j0 <= j && Given(rd, z, calls, j)
    ensures z.Output() == old(z.Output())
    ensures r == Ended ==> rd.bits < 8 && rd.Left() <= old(rd.Left()) && TablesFor(t, w, llens, dlens)
    ensures r == Starved ==> j == |calls|
    ensures BodyAhead(w, b, rest, after, old(rd.Value()), old(rd.Left())) ==>
              && BlockOK(w, b) && (r == Ended || r == Starved)
              && (r == Ended ==> && llens == b.l.lens && dlens == b.d.lens && rd.Value() == FieldsBits(BodyFields(w, b), rest)
                                 && FieldsLength(BodyFields(w, b)) + after <= rd.Left())
              && (r == Starved ==> rd.limit < |rd.input|)
  {
    hide Shr, Stream, Shl, Pow2, WindowHolds, BlockOK, BodyAhead, BodyFields, FieldsBits, FieldsLength, TablesFor, Acceptable, TreeReader.HeaderFor, Given;
    ghost var good := BodyAhead(w, b, rest, after, rd.Value(), rd.Left());
    ghost var x, f := 0, 0;
    if good {
      HeaderStarts(w, b, rest, after, rd.Value(), rd.Left());
      BlockParams(w, b);
      x, f := FieldsBits(BodyFields(w, b), rest), FieldsLength(BodyFields(w, b));
    }
    t, llens, dlens := Tables(map[], 0, map[], 0), [], [];
    var status, nlen, ndist, lens;
    status, nlen, ndist, lens, j := TreeReader.ReadTrees(rd, z, calls, j0, w, b.l.lens, b.d.lens, b.nb, b.bl, b.codes, b.items, x, f + after);
    if status != CodeLensDecoder.Done {
      r := if status == CodeLensDecoder.Bad then Broken else Starved;
      return;
    }
    llens, dlens := lens[..nlen], lens[nlen..];
    if good {
      assert llens == b.l.lens && dlens == b.d.lens;
    }
    var ok, used;
    ok, t, used := BuildTables(w, lens, nlen);
    r := if ok then Ended else Broken;
  }

  /** Decodes a block, over any calls. */
  method DecodeBlock(rd: BitReader, z: Inflater, calls: seq<Call>, j0: nat, w: nat, ghost b: Block, ghost rest: nat, ghost after: nat)
    returns (r: BlockEnd, last: bool, j: nat)
    requires rd.Valid() && z.Valid() && rd.bits < 8 && w == 15 && Given(rd, z, calls, j0)
    modifies rd, z, z.window, z.out
    ensures rd.Valid() && z.Valid() && (z.out == old(z.out) || fresh(z.out)) && j0 <= j && Given(rd, z, calls, j)
    ensures r == Ended ==> rd.bits < 8 && rd.Left() < old(rd.Left())
    ensures r == Starved ==> j == |calls|
    // a block that was sent is decoded to its tokens, once all its input and enough room are given
    ensures BlockAhead(w, b, rest, after, z.window.Length, old(rd.Value()), old(rd.Left()), old(z.Output())) ==>
              && OpsOK(old(z.Output()), b.tokens) && (r == Ended || r == Starved)
              && (r == Ended ==> && last == b.last && rd.Value() == rest && after <= rd.Left()
                                 && z.Output() == ApplyAll(old(z.Output()), b.tokens))
              && (r == Starved ==> && z.Output() <= ApplyAll(old(z.Output()), b.tokens)
                                   && (z.put == z.out.Length || rd.limit < |rd.input|))
  {
    hide Low, Shr, Stream, Shl, Pow2, WindowHolds, BlockAhead, BodyAhead, BlockOK, OpsOK, ApplyAll, InWindow, BodyFields, FieldsBits, FieldsLength,
      TablesFor, Goal, Given;
    ghost var h := z.Output();
    ghost var good := BlockAhead(w, b, rest, after, z.window.Length, rd.Value(), rd.Left(), h);
    ghost var target := [];
    if good {
      BlockStarts(w, b, rest, after, z.window.Length, rd.Value(), rd.Left(), h);
      TokensInWindow(w, b, rest, after, z.window.Length, rd.Value(), rd.Left(), h);
      target := ApplyAll(h, b.tokens);
    }
    var ok, kind;
    ok, last, kind, j := ReadType(rd, z, calls, j0);
    if !ok {
      return Starved, last, j;
    }
    if kind != 2 {
      return if kind == 3 then Broken else OtherKind, last, j;
    }
    var t;
    ghost var llens, dlens;
    r, t, llens, dlens, j := DecodeTrees(rd, z, calls, j, w, b, rest, after);
    if r != Ended {
      return;
    }
    if good {
      SymbolsStart(w, b, rest, after, z.window.Length, h, t, rd.Left());
    }
    var e, mode;
    e, mode, j := DecodeSymbols(rd, z, calls, j, t, w, llens, dlens, b.m, b.l, b.d, b.tokens, rest, after, target);
    r := if e == NoCalls then Starved else if e == Stepped && mode == TYPE then Ended else Broken;
  }

  lemma TokensInWindow(w: nat, b: Block, rest: nat, after: nat, wmax: nat, v: nat, left: nat, h: seq<Byte>)
    requires BlockAhead(w, b, rest, after, wmax, v, left, h)
    ensures InWindow(b.tokens, wmax)
  {
  }

  // ---------- both ----------

  /** The tokens of all blocks. */
  ghost function Joined(blocks: seq<seq<Op>>): seq<Op>
    decreases |blocks|
  {
    if blocks == [] then [] else blocks[0] + Joined(blocks[1..])
  }

  lemma {:induction false} ApplyBoth(h: seq<Byte>, a: seq<Op>, b: seq<Op>)
    ensures OpsOK(h, a + b) <==> OpsOK(h, a) && OpsOK(ApplyAll(h, a), b)
    ensures OpsOK(h, a + b) ==> ApplyAll(h, a + b) == ApplyAll(ApplyAll(h, a), b)
    decreases |a|
  {
    if a == [] {
      assert a + b == b;
    } else {
      assert (a + b)[1..] == a[1..] + b && (a + b)[0] == a[0];
      if OpOK(h, a[0]) {
        ApplyBoth(Apply(h, a[0]), a[1..], b);
      }
    }
  }

  /** The next bits are those of the blocks; their tokens lead from the output h to target. */
  ghost predicate StreamAhead(w: nat, bs: seq<Block>, blocks: seq<seq<Op>>, wmax: nat, v: nat, left: nat, h: seq<Byte>, target: seq<Byte>) {
    && StreamFor(w, bs, blocks) && BlocksOK(w, bs) && v == StreamBits(w, bs, 0) && StreamSize(w, bs) <= left
    && OpsOK(h, Joined(blocks)) && InWindow(Joined(blocks), wmax) && ApplyAll(h, Joined(blocks)) == target
  }

  /** The first block of a stream, and the stream after it. */
  lemma FirstBlock(w: nat, bs: seq<Block>, blocks: seq<seq<Op>>, wmax: nat, v: nat, left: nat, h: seq<Byte>, target: seq<Byte>)
    requires StreamAhead(w, bs, blocks, wmax, v, left, h, target) && blocks != []
    ensures |bs| == |blocks| && bs[0].last == (|blocks| == 1) && BlocksOK(w, bs[1..])
    ensures BlockAhead(w, bs[0], StreamBits(w, bs[1..], 0), StreamSize(w, bs[1..]), wmax, v, left, h)
    ensures OpsOK(h, bs[0].tokens) && ApplyAll(h, bs[0].tokens) <= target
    ensures |blocks| == 1 ==> ApplyAll(h, bs[0].tokens) == target
    ensures forall left': nat :: StreamSize(w, bs[1..]) <= left' ==>
              StreamAhead(w, bs[1..], blocks[1..], wmax, StreamBits(w, bs[1..], 0), left', ApplyAll(h, bs[0].tokens), target)
  {
    hide BlockOK, BlockBits, BlockSize, OpsOK, ApplyAll;
    var a, b := blocks[0], Joined(blocks[1..]);
    ApplyBoth(h, a, b);
    OutputPrefix(ApplyAll(h, a), b);
    OutputNone(ApplyAll(h, a));
    forall i | 0 <= i < |a| && a[i].Match? ensures a[i].dist <= wmax {
      assert (a + b)[i] == a[i];
    }
    forall i | 0 <= i < |b| && b[i].Match? ensures b[i].dist <= wmax {
      assert (a + b)[|a| + i] == b[i];
    }
    forall i | 0 <= i < |bs[1..]| ensures BlockOK(w, bs[1..][i]) && bs[1..][i].tokens == blocks[1..][i] && (bs[1..][i].last <==> i == |bs[1..]| - 1) {
      assert bs[1..][i] == bs[i + 1];
    }
  }

  /** Decodes blocks until the last one, over any calls. */
  method DecodeStream(rd: BitReader, z: Inflater, calls: seq<Call>, w: nat, ghost bs: seq<Block>, ghost blocks: seq<seq<Op>>, ghost target: seq<Byte>)
    returns (r: BlockEnd, j: nat)
    requires rd.Valid() && z.Valid() && rd.bits < 8 && w == 15 && Given(rd, z, calls, 0)
    modifies rd, z, z.window, z.out
    ensures rd.Valid() && z.Valid() && (z.out == old(z.out) || fresh(z.out)) && Given(rd, z, calls, j)
    ensures r == Starved ==> j == |calls|
    ensures blocks != [] && StreamAhead(w, bs, blocks, z.window.Length, old(rd.Value()), old(rd.Left()), old(z.Output()), target) ==>
              && (r == Ended || r == Starved)
              && (r == Ended ==> z.Output() == target)
              && (r == Starved ==> z.Output() <= target && (z.put == z.out.Length || rd.limit < |rd.input|))
  {
    hide Stream, Shl, Pow2, WindowHolds, BlockAhead, StreamAhead, OpsOK, ApplyAll, StreamBits, StreamSize, BlocksOK, Given;
    ghost var good := blocks != [] && StreamAhead(w, bs, blocks, z.window.Length, rd.Value(), rd.Left(), z.Output(), target);
    ghost var todo, parts := bs, blocks;
    var last := false;
    j := 0;
    while !last
      invariant rd.Valid() && z.Valid() && rd.bits < 8 && (z.out == old(z.out) || fresh(z.out)) && Given(rd, z, calls, j)
      invariant good && !last ==> parts != [] && StreamAhead(w, todo, parts, z.window.Length, rd.Value(), rd.Left(), z.Output(), target)
      invariant good && last ==> z.Output() == target
      decreases rd.Left()
    {
      ghost var b := Block(false, [], Maps([], []), Alphabet([], []), Alphabet([], []), 0, [], [], []);
      ghost var rest, after := 0, 0;
      if good {
        FirstBlock(w, todo, parts, z.window.Length, rd.Value(), rd.Left(), z.Output(), target);
        b, rest, after := todo[0], StreamBits(w, todo[1..], 0), StreamSize(w, todo[1..]);
      }
      r, last, j := DecodeBlock(rd, z, calls, j, w, b, rest, after);
      if r != Ended {
        return;
      }
      if good {
        todo, parts := todo[1..], parts[1..];
      }
    }
    r := Ended;
  }

  /** Whatever blocks of literals and matches are sent with trees of their own, however the
      bytes are cut into calls and whatever the room in each call: what is put out is what
      copying from the whole output gives, all of it or, if the calls bring too few bytes or
      the last one has no more room, a beginning of it. */
  method RoundTrip(blocks: seq<seq<Op>>, wbits: nat, calls: seq<Call>) returns (r: BlockEnd, z: Inflater, bytes: seq<Byte>)
    requires blocks != [] && forall i {:trigger blocks[i]} :: 0 <= i < |blocks| ==> TokensOK(blocks[i])
    requires OpsOK([], Joined(blocks)) && InWindow(Joined(blocks), Pow2(wbits))
    ensures fresh(z) && z.Valid() && (r == Ended || r == Starved)
    ensures r == Ended ==> z.Output() == ApplyAll([], Joined(blocks))
    ensures r == Starved ==> z.Output() <= ApplyAll([], Joined(blocks))
    ensures r == Starved ==> Brought(calls, |calls|) < |bytes| || z.put == z.out.Length
    // so it is all of it if the calls bring all bytes and the last one has room for it
    ensures |calls| > 0 && Brought(calls, |calls|) >= |bytes| && calls[|calls| - 1].size > |ApplyAll([], Joined(blocks))| ==> r == Ended
    ensures exists bs :: StreamSent(MAXBITS, bs, blocks, bytes)
  {
    hide TokensOK, OpsOK, ApplyAll, Pow2, WindowHolds, StreamBits, StreamSize, Stream, BlocksOK, StreamFor, Joined, InWindow;
    ghost var bs;
    bytes, bs := EncodeStream(MAXBITS, blocks);
    z := new Inflater(wbits, 0);
    var rd := new BitReader(bytes);
    var j;
    r, j := DecodeStream(rd, z, calls, MAXBITS, bs, blocks, ApplyAll([], Joined(blocks)));
  }
}
