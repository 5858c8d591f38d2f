/** A whole block with dynamic trees, from literals and matches to bytes and back. */
module DynamicBlock {
  import opened Bits
  import opened BitStream
  import opened BitInput
  import opened Huffman
  import opened InflateTable
  import opened History
  import opened InflateWindow
  import opened LengthCodes
  import opened BlockDecoder
  import opened BlockEncoder
  import opened BlockSymbols
  import CodeLengths
  import CodeLensDecoder
  import DynamicTrees
  import EncoderTree
  import FastDecode
  import HuffmanTree
  import SlowDecode
  import TreeReader
  import TreeSender
  import opened Wrappers

  // ---------- the frequencies ----------

  /** The symbol of the literal/length tree for a token. */
  function LitSymbol(m: Maps, op: Op): nat
    requires |m.lcode| == 256 && TokenOK(op)
  {
    match op
    case Lit(b) => b
    case Match(len, dist) => 257 + LengthSymbol(m, len)
  }

  ghost predicate TokensOK(tokens: seq<Op>) {
    forall i {:trigger tokens[i]} :: 0 <= i < |tokens| ==> TokenOK(tokens[i])
  }

  /** How many of the first n tokens have the symbol s, in either tree. */
  ghost function LitCount(m: Maps, tokens: seq<Op>, n: nat, s: nat): nat
    requires |m.lcode| == 256 && TokensOK(tokens) && n <= |tokens|
  {
    if n == 0 then 0 else LitCount(m, tokens, n - 1, s) + if LitSymbol(m, tokens[n - 1]) == s then 1 else 0
  }

  ghost function DistCount(m: Maps, tokens: seq<Op>, n: nat, s: nat): nat
    requires |m.dcode| == 512 && TokensOK(tokens) && n <= |tokens|
  {
    if n == 0 then 0
    else DistCount(m, tokens, n - 1, s)
         + if tokens[n - 1].Match? && DistSymbol(m, tokens[n - 1].dist) == s then 1 else 0
  }

  lemma {:induction false} CountedSymbols(m: Maps, tokens: seq<Op>, n: nat, i: nat)
    requires |m.lcode| == 256 && |m.dcode| == 512 && TokensOK(tokens) && i < n <= |tokens|
    ensures LitCount(m, tokens, n, LitSymbol(m, tokens[i])) > 0
    ensures tokens[i].Match? ==> DistCount(m, tokens, n, DistSymbol(m, tokens[i].dist)) > 0
    decreases n
  {
    if i < n - 1 {
      CountedSymbols(m, tokens, n - 1, i);
    }
  }

  /** The frequencies of the symbols of the first n tokens, the end-of-block symbol once. */
  ghost predicate Tallied(m: Maps, tokens: seq<Op>, n: nat, lfreq: seq<nat>, dfreq: seq<nat>)
    requires |m.lcode| == 256 && |m.dcode| == 512 && TokensOK(tokens) && n <= |tokens|
  {
    && |lfreq| == 286 && |dfreq| == 30
    && (forall s {:trigger lfreq[s]} :: 0 <= s < 286 ==> lfreq[s] == LitCount(m, tokens, n, s) + if s == END_BLOCK then 1 else 0)
    && (forall s {:trigger dfreq[s]} :: 0 <= s < 30 ==> dfreq[s] == DistCount(m, tokens, n, s))
  }

  lemma TallyStep(m: Maps, tokens: seq<Op>, n: nat, lfreq: seq<nat>, dfreq: seq<nat>, c: nat, lfreq': seq<nat>, dfreq': seq<nat>)
    requires |m.lcode| == 256 && |m.dcode| == 512 && TokensOK(tokens) && n < |tokens| && Tallied(m, tokens, n, lfreq, dfreq)
    requires c == LitSymbol(m, tokens[n]) < 286 && lfreq' == lfreq[c := lfreq[c] + 1]
    requires tokens[n].Lit? ==> dfreq' == dfreq
    requires tokens[n].Match? ==> var e := DistSymbol(m, tokens[n].dist); e < 30 && dfreq' == dfreq[e := dfreq[e] + 1]
    ensures Tallied(m, tokens, n + 1, lfreq', dfreq')
  {
  }

  lemma TallyStart(m: Maps, tokens: seq<Op>, lfreq: seq<nat>, dfreq: seq<nat>)
    requires |m.lcode| == 256 && |m.dcode| == 512 && TokensOK(tokens) && |lfreq| == 286 && |dfreq| == 30
    requires forall s {:trigger lfreq[s]} :: 0 <= s < 286 ==> lfreq[s] == if s == END_BLOCK then 1 else 0
    requires forall s {:trigger dfreq[s]} :: 0 <= s < 30 ==> dfreq[s] == 0
    ensures Tallied(m, tokens, 0, lfreq, dfreq)
  {
  }

  /** Counts the symbols of a block, the end-of-block symbol once. */
  method Tally(m: Maps, tokens: seq<Op>) returns (lfreq: seq<nat>, dfreq: seq<nat>)
    requires MapsOK(m) && TokensOK(tokens)
    ensures |m.lcode| == 256 && |m.dcode| == 512 && Tallied(m, tokens, |tokens|, lfreq, dfreq)
  {
    hide MapsOK, Tallied, CoversLength, CoversDist;
    MapSizes(m);
    lfreq := seq(286, s requires 0 <= s < 286 => if s == END_BLOCK then 1 else 0);
    dfreq := seq(30, _ => 0);
    TallyStart(m, tokens, lfreq, dfreq);
    for i := 0 to |tokens|
      invariant |lfreq| == 286 && |dfreq| == 30 && Tallied(m, tokens, i, lfreq, dfreq)
    {
      assert TokenOK(tokens[i]);
      ghost var lfreq0, dfreq0 := lfreq, dfreq;
      match tokens[i] {
        case Lit(b) =>
          lfreq := lfreq[b := lfreq[b] + 1];
        case Match(len, dist) =>
          SymbolRange(m, len, dist);
          CodeRange(LengthSymbol(m, len), len - 3);
          DistRange(DistSymbol(m, dist), dist - 1);
          var c := m.lcode[len - 3] + 256 + 1;
          lfreq := lfreq[c := lfreq[c] + 1];
          var e := m.dcode[DistIndex(dist - 1)];
          dfreq := dfreq[e := dfreq[e] + 1];
      }
      TallyStep(m, tokens, i, lfreq0, dfreq0, LitSymbol(m, tokens[i]), lfreq, dfreq);
    }
  }

  // ---------- the encoder ----------

  /** The trees of a block and what they are good for. */
  ghost predicate TreesFor(w: nat, m: Maps, l: Alphabet, d: Alphabet, tokens: seq<Op>) {
    Codable(w, m, l, d, tokens) && Kraft(w, l.lens, w) == Pow2(w) && Kraft(w, d.lens, w) == Pow2(w)
  }

  /** There are codes for all tokens and the end of the block. */
  ghost predicate Codable(w: nat, m: Maps, l: Alphabet, d: Alphabet, tokens: seq<Op>) {
    && AlphabetOK(w, l) && AlphabetOK(w, d) && AllUsable(m, l, d, tokens) && Has(l, END_BLOCK)
    && 257 <= |l.lens| <= 286 && 1 <= |d.lens| <= 30
  }

  /** A tree has a code for every symbol that occurs. */
  ghost predicate CodesAll(a: Alphabet, freq: seq<nat>) {
    |a.lens| == |a.codes| && forall s: nat {:trigger Has(a, s)} :: s < |freq| && freq[s] != 0 ==> Has(a, s)
  }

  lemma TreeCodesAll(w: nat, freq: seq<nat>, f: seq<nat>, a: Alphabet)
    requires |freq| <= |f| && f[..|freq|] == freq && w <= 15 && EncoderTree.CodeFor(w, w, |freq|, f, a.lens, a.codes)
    ensures CodesAll(a, freq) && AlphabetOK(w, a) && Kraft(w, a.lens, w) == Pow2(w) && 1 <= |a.lens| <= |freq|
  {
    hide Kraft, Pow2, CodeOf, HuffmanTree.Used;
    forall s: nat | s < |freq| && freq[s] != 0 ensures Has(a, s) {
      assert f[s] == freq[s];
    }
  }

  lemma TokenUsable(m: Maps, tokens: seq<Op>, lfreq: seq<nat>, dfreq: seq<nat>, l: Alphabet, d: Alphabet, i: nat)
    requires MapsOK(m) && TokensOK(tokens) && |lfreq| == 286 && |dfreq| == 30 && |m.lcode| == 256 && |m.dcode| == 512 && i < |tokens|
    requires Tallied(m, tokens, |tokens|, lfreq, dfreq)
    requires CodesAll(l, lfreq) && CodesAll(d, dfreq)
    ensures Usable(m, l, d, tokens[i])
  {
    hide LitCount, DistCount, CoversLength, CoversDist, MapsOK, Has;
    CountedSymbols(m, tokens, |tokens|, i);
    assert TokenOK(tokens[i]);
    match tokens[i] {
      case Lit(b) =>
        assert lfreq[b] != 0;
      case Match(len, dist) =>
        SymbolRange(m, len, dist);
        CodeRange(LengthSymbol(m, len), len - 3);
        DistRange(DistSymbol(m, dist), dist - 1);
        assert lfreq[257 + LengthSymbol(m, len)] != 0 && dfreq[DistSymbol(m, dist)] != 0;
    }
  }

  lemma TreesWork(w: nat, m: Maps, tokens: seq<Op>, lfreq: seq<nat>, dfreq: seq<nat>, lf: seq<nat>, df: seq<nat>, l: Alphabet, d: Alphabet)
    requires w <= 15 && MapsOK(m) && TokensOK(tokens) && |lfreq| == 286 && |dfreq| == 30 && |m.lcode| == 256 && |m.dcode| == 512
    requires Tallied(m, tokens, |tokens|, lfreq, dfreq)
    requires |lf| >= 286 && lf[..286] == lfreq && |df| >= 30 && df[..30] == dfreq
    requires EncoderTree.CodeFor(w, w, 286, lf, l.lens, l.codes) && EncoderTree.CodeFor(w, w, 30, df, d.lens, d.codes)
    ensures TreesFor(w, m, l, d, tokens)
  {
    hide Kraft, Pow2, LitCount, DistCount, MapsOK, EncoderTree.CodeFor, AlphabetOK, Usable;
    TreeCodesAll(w, lfreq, lf, l);
    TreeCodesAll(w, dfreq, df, d);
    assert lfreq[END_BLOCK] != 0;
    assert Has(l, END_BLOCK);
    forall i | 0 <= i < |tokens| ensures Usable(m, l, d, tokens[i]) {
      TokenUsable(m, tokens, lfreq, dfreq, l, d, i);
    }
  }

  /** Builds both trees of a block. */
  method BuildTrees(w: nat, m: Maps, tokens: seq<Op>) returns (l: Alphabet, d: Alphabet)
    requires w == 15 && MapsOK(m) && TokensOK(tokens)
    ensures TreesFor(w, m, l, d, tokens)
  {
    hide MapsOK, TreesFor, EncoderTree.CodeFor, LitCount, DistCount, Pow2, HuffmanTree.Used;
    var lfreq, dfreq := Tally(m, tokens);
    var lf := lfreq + seq(287, _ => 0);
    var df := dfreq + seq(31, _ => 0);
    EnoughCodes(w);
    var lf', llens, lcodes, llimited := EncoderTree.BuildTree(w, w, 286, lf, seq(573, _ => 0), seq(573, _ => 0), seq(573, _ => 0));
    var df', dlens, dcodes, dlimited := EncoderTree.BuildTree(w, w, 30, df, seq(61, _ => 0), seq(61, _ => 0), seq(573, _ => 0));
    l, d := Alphabet(llens, lcodes), Alphabet(dlens, dcodes);
    TreesWork(w, m, tokens, lfreq, dfreq, lf, df, l, d);
  }

  lemma EnoughCodes(w: nat)
    requires w == 15
    ensures 286 <= Pow2(w)
  {
    Pow2Monotone(9, w);
    assert Pow2(9) == 512;
  }

  /** A block and the trees it is sent with: those of its literals and lengths and of its
      distances, nb lengths of the code-length code, and the symbols that stand for the lengths. */
  datatype Block = Block(last: bool, tokens: seq<Op>, m: Maps, l: Alphabet, d: Alphabet, nb: nat, bl: seq<nat>, codes: seq<nat>,
                         items: seq<CodeLengths.Item>)

  /** A block as the standard allows it: codes that can be told apart, and their lengths sent
      as any symbols that stand for them. */
  ghost predicate BlockOK(w: nat, b: Block) {
    && Codable(w, b.m, b.l, b.d, b.tokens) && Acceptable(w, b.l.lens, LENS) && Acceptable(w, b.d.lens, DISTS)
    && 4 <= b.nb <= 19 && |b.bl| == |b.codes| == 19 && TreeSender.ItemsOK(b.items)
    && CodeLengths.ExpandAll([], b.items) == Some(b.l.lens + b.d.lens)
    && DynamicTrees.BlTree(w, b.bl, b.codes, b.items)
    && forall i {:trigger DynamicTrees.OrderAt(i)} :: b.nb <= i < 19 ==> b.bl[DynamicTrees.OrderAt(i)] == 0
  }

  /** The header, followed by x. */
  ghost function HeaderOf(w: nat, b: Block, x: nat): nat
    requires BlockOK(w, b)
  {
    DynamicTrees.HeaderBits(|b.l.lens|, |b.d.lens|, b.nb, b.bl, TreeSender.ItemsBits(b.bl, b.codes, b.items, x))
  }

  ghost function HeaderSize(w: nat, b: Block): nat
    requires BlockOK(w, b)
  {
    14 + 3 * b.nb + TreeSender.ItemsLength(b.bl, b.items)
  }

  ghost function BodyFields(w: nat, b: Block): seq<Field>
    requires BlockOK(w, b)
  {
    BlockFields(b.m, b.l, b.d, b.tokens)
  }

  function TypeBits(last: bool): nat {
    2 * 2 + if last then 1 else 0
  }

  /** The bits of a block, followed by rest: its type, the trees and the symbols. */
  ghost function BlockBits(w: nat, b: Block, rest: nat): nat
    requires BlockOK(w, b)
  {
    TypeBits(b.last) + Shl(HeaderOf(w, b, FieldsBits(BodyFields(w, b), rest)), 3)
  }

  ghost function BlockSize(w: nat, b: Block): nat
    requires BlockOK(w, b)
  {
    3 + HeaderSize(w, b) + FieldsLength(BodyFields(w, b))
  }

  /** The header and what comes after it. */
  lemma HeaderThen(w: nat, b: Block, x: nat)
    requires BlockOK(w, b)
    ensures HeaderOf(w, b, x) == HeaderOf(w, b, 0) + Shl(x, HeaderSize(w, b))
  {
    hide Shl, DynamicTrees.HeaderBits, TreeSender.ItemsBits, TreeSender.ItemsLength, Acceptable, CodeLengths.ExpandAll, DynamicTrees.BlTree, Kraft, Pow2, AllUsable;
    var items := b.items;
    var y, n := TreeSender.ItemsBits(b.bl, b.codes, items, 0), TreeSender.ItemsLength(b.bl, items);
    TreeSender.ItemsRest(b.bl, b.codes, items, x);
    DynamicTrees.HeaderRest(|b.l.lens|, |b.d.lens|, b.nb, b.bl, y + Shl(x, n));
    DynamicTrees.HeaderRest(|b.l.lens|, |b.d.lens|, b.nb, b.bl, y);
    ShlAdd(y, Shl(x, n), 14 + 3 * b.nb);
    ShlShl(x, n, 14 + 3 * b.nb);
  }

  /** A block and what comes after it. */
  lemma BlockThen(w: nat, b: Block, rest: nat)
    requires BlockOK(w, b)
    ensures BlockBits(w, b, rest) == BlockBits(w, b, 0) + Shl(rest, BlockSize(w, b))
  {
    hide Shl, HeaderOf, HeaderSize, BlockOK, FieldsBits, FieldsLength, BodyFields;
    var fs := BodyFields(w, b);
    var x, f, h := FieldsBits(fs, 0), FieldsLength(fs), HeaderSize(w, b);
    FieldsRest(fs, rest);
    HeaderThen(w, b, x);
    HeaderThen(w, b, x + Shl(rest, f));
    ShlAdd(x, Shl(rest, f), h);
    ShlShl(rest, f, h);
    ShlAdd(HeaderOf(w, b, x), Shl(rest, f + h), 3);
    ShlShl(rest, f + h, 3);
  }

  /** The type, the trees and the symbols of a block were sent one after the other. */
  lemma BlockParts(w: nat, b: Block, v0: nat, n0: nat, v1: nat, n1: nat, v2: nat, n2: nat, v3: nat, n3: nat)
    requires BlockOK(w, b) && SentNumber(v0, n0, TypeBits(b.last), 3, v1, n1)
    requires SentNumber(v1, n1, HeaderOf(w, b, 0), HeaderSize(w, b), v2, n2) && SentFields(v2, n2, BodyFields(w, b), v3, n3)
    ensures SentNumber(v0, n0, BlockBits(w, b, 0), BlockSize(w, b), v3, n3)
  {
    hide Shl, HeaderOf, HeaderSize, BlockOK, FieldsBits, FieldsLength, BodyFields, SentNumber, TypeBits;
    var fs := BodyFields(w, b);
    HeaderThen(w, b, FieldsBits(fs, 0));
    SentThen(v1, n1, HeaderOf(w, b, 0), HeaderSize(w, b), v2, n2, FieldsBits(fs, 0), FieldsLength(fs), v3, n3);
    SentThen(v0, n0, TypeBits(b.last), 3, v1, n1, HeaderOf(w, b, FieldsBits(fs, 0)), HeaderSize(w, b) + FieldsLength(fs), v3, n3);
  }

  lemma TypeFits(last: bool)
    ensures TypeBits(last) < Pow2(3)
  {
  }

  lemma TreeSizes(w: nat, m: Maps, l: Alphabet, d: Alphabet, tokens: seq<Op>)
    requires TreesFor(w, m, l, d, tokens)
    ensures 257 <= |l.lens| <= 286 && 1 <= |d.lens| <= 30 && Codable(w, m, l, d, tokens)
    ensures AlphabetOK(w, l) && AlphabetOK(w, d) && w <= 15 && LensOK(w, l.lens) && LensOK(w, d.lens)
    ensures CodeLengths.LengthsOK(l.lens) && CodeLengths.LengthsOK(d.lens) && l.lens[END_BLOCK] != 0
    ensures Kraft(w, l.lens, w) == Pow2(w) && Kraft(w, d.lens, w) == Pow2(w)
  {
  }

  /** Builds the trees of a block. */
  method PlanBlock(w: nat, tokens: seq<Op>, last: bool, m: Maps) returns (b: Block)
    requires w == 15 && MapsOK(m) && TokensOK(tokens)
    ensures BlockOK(w, b) && b.tokens == tokens && b.last == last && b.m == m && TreesFor(w, m, b.l, b.d, tokens)
    ensures b.items == CodeLengths.TreeItems(b.l.lens) + CodeLengths.TreeItems(b.d.lens)
  {
    hide MapsOK, TreesFor, Codable, Acceptable, CodeLengths.ExpandAll, Pow2, Kraft, DynamicTrees.BlTree, DynamicTrees.OrderAt, DynamicTrees.OnlyRepeats, AllUsable,
      AlphabetOK, CodeLengths.TreeItems, CoversLength, CoversDist;
    var l, d := BuildTrees(w, m, tokens);
    TreeSizes(w, m, l, d, tokens);
    var bl, codes, lastIndex := DynamicTrees.BuildBlTree(w, l.lens, d.lens);
    DynamicTrees.PlainSent(l.lens, d.lens, END_BLOCK);
    var items := CodeLengths.TreeItems(l.lens) + CodeLengths.TreeItems(d.lens);
    TreeReader.BlTreeFacts(w, bl, codes, items);
    CodeLengths.BothTreesExpand(l.lens, d.lens);
    RejectedIff(w, l.lens, LENS);
    RejectedIff(w, d.lens, DISTS);
    b := Block(last, tokens, m, l, d, lastIndex + 1, bl, codes, items);
  }

  lemma BlockParams(w: nat, b: Block)
    requires BlockOK(w, b)
    ensures AlphabetOK(w, b.l) && AlphabetOK(w, b.d) && AllUsable(b.m, b.l, b.d, b.tokens) && Has(b.l, END_BLOCK)
    ensures 257 <= |b.l.lens| <= 286 && 1 <= |b.d.lens| <= 30 && 4 <= b.nb <= 19
    ensures CodeLengths.LengthsOK(b.l.lens) && CodeLengths.LengthsOK(b.d.lens)
    ensures TreeSender.Codes(b.bl, b.codes) && LensOK(7, b.bl)
    ensures Acceptable(w, b.l.lens, LENS) && Acceptable(w, b.d.lens, DISTS)
  {
    hide TreeSender.Codes, AllUsable, Acceptable, Kraft, Pow2, DynamicTrees.OrderAt, CodeLengths.ExpandAll;
  }

  /** Sends a block with trees of its own, after whatever was sent before. */
  method EncodeBlock(out: BitWriter, w: nat, tokens: seq<Op>, last: bool, m: Maps, lbase: seq<nat>, dbase: seq<nat>) returns (b: Block)
    requires out.Valid() && w == 15 && MapsOK(m) && TokensOK(tokens)
    requires |lbase| == 29 && (forall c {:trigger lbase[c]} :: 0 <= c < 28 ==> lbase[c] == LengthBase(c))
    requires |dbase| == 30 && (forall c {:trigger dbase[c]} :: 0 <= c < 30 ==> dbase[c] == DistBase(c))
    modifies out
    ensures out.Valid() && BlockOK(w, b) && b.tokens == tokens && b.last == last && TreesFor(w, m, b.l, b.d, tokens)
    ensures SentNumber(old(out.Value()), old(out.Length()), BlockBits(w, b, 0), BlockSize(w, b), out.Value(), out.Length())
  {
    hide MapsOK, BlockOK, TreesFor, Acceptable, SentFields, Stream, Shl, Pow2, Kraft, AllUsable, BlockFields, BlockBits, BlockSize, AlphabetOK,
      CodeLengths.TreeItems, TreeSender.Codes, TreeSender.ItemsBits, TreeSender.ItemsLength, DynamicTrees.HeaderBits, LengthBase, DistBase;
    b := PlanBlock(w, tokens, last, m);
    BlockParams(w, b);
    ghost var v0, n0 := out.Value(), out.Length();
    TypeFits(last);
    out.SendBits(TypeBits(last), 3);
    ghost var v1, n1 := out.Value(), out.Length();
    DynamicTrees.SendAllTrees(out, b.l.lens, b.d.lens, b.bl, b.codes, b.nb);
    ghost var v2, n2 := out.Value(), out.Length();
    CompressBlock(out, w, m, lbase, dbase, b.l, b.d, tokens);
    BlockParts(w, b, v0, n0, v1, n1, v2, n2, out.Value(), out.Length());
  }
}
