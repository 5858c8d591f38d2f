/** The bits that are sent for a block decode to its literals and matches. */
module BlockSymbols {
  import opened Bits
  import opened BitStream
  import opened Huffman
  import opened InflateTable
  import opened History
  import opened InflateWindow
  import opened LengthCodes
  import opened BlockDecoder
  import opened BlockEncoder

  // ---------- decoding what was sent ----------

  function SymbolOf(op: Op): Symbol {
    match op
    case Lit(b) => Literal(b)
    case Match(len, dist) => Pair(len, dist)
  }

  /** The code of symbol s followed by rest is found, and used up. */
  lemma LookupSent(w: nat, kind: CodeType, a: Alphabet, table: map<nat, Entry>, root: nat, s: nat, rest: nat)
    requires AlphabetOK(w, a) && TableFor(w, kind, a.lens, table, root) && Has(a, s)
    ensures s < MaxSymbols(kind)
    ensures var v := a.codes[s] + Shl(rest, a.lens[s]); var (e, n) := Lookup(table, root, v); var leaf := Leaf(kind, s, 0);
            n == a.lens[s] && e.op == leaf.op && e.val == leaf.val && Shr(v, n) == rest
  {
    hide Lookup, Leaf, Shl, Shr, Low, Pow2, CodeOf, PointersAtRoot, BeginsWithCode;
    var v := a.codes[s] + Shl(rest, a.lens[s]);
    SentBeginsWith(w, a.lens, s, rest);
    assert BeginsWith(w, a.lens, v, s);
    assert Decodes(table, root, v, kind, s, a.lens[s]);
    LeafParts(kind, s, Lookup(table, root, v).0.bits, 0);
    SymbolFits(w, a, s);
    LowAddShl(a.codes[s], rest, a.lens[s]);
  }

  lemma ExtraOp(x: nat)
    requires x <= 13
    ensures Bit(16 + x, 16) && (16 + x) % 16 == x
  {
  }

  lemma FourFields(a: Field, b: Field, c: Field, d: Field, rest: nat)
    ensures FieldsBits([a, b, c, d], rest)
         == a.value + Shl(b.value + Shl(c.value + Shl(d.value + Shl(rest, d.width), c.width), b.width), a.width)
    ensures FieldsLength([a, b, c, d]) == a.width + b.width + c.width + d.width
  {
    hide Shl;
    assert [a, b, c, d][1..] == [b, c, d] && [b, c, d][1..] == [c, d] && [c, d][1..] == [d] && [d][1..] == [];
    assert FieldsBits([], rest) == rest && FieldsLength([]) == 0;
    assert FieldsBits([d], rest) == d.value + Shl(rest, d.width) && FieldsLength([d]) == d.width;
    assert FieldsBits([c, d], rest) == c.value + Shl(FieldsBits([d], rest), c.width);
    assert FieldsLength([c, d]) == c.width + d.width;
    assert FieldsBits([b, c, d], rest) == b.value + Shl(FieldsBits([c, d], rest), b.width);
  }

  lemma SingleField(a: Field, rest: nat)
    ensures FieldsBits([a], rest) == a.value + Shl(rest, a.width) && FieldsLength([a]) == a.width
  {
    assert [a][1..] == [];
  }

  // ---------- what any bits mean (section 3.2.5 of RFC 1951) ----------

  /** Bits that begin with the code of s are looked up as the entry of s. */
  lemma Found(w: nat, kind: CodeType, lens: seq<nat>, table: map<nat, Entry>, root: nat, v: nat, s: nat)
    requires TableFor(w, kind, lens, table, root) && s < |lens| && BeginsWith(w, lens, v, s)
    ensures s < MaxSymbols(kind)
    ensures var (e, n) := Lookup(table, root, v); var leaf := Leaf(kind, s, 0); n == lens[s] && e.op == leaf.op && e.val == leaf.val
  {
    hide Lookup, Leaf, BeginsWith, PointersAtRoot, BeginsWithCode;
    assert Decodes(table, root, v, kind, s, lens[s]);
    LeafParts(kind, s, Lookup(table, root, v).0.bits, 0);
  }

  lemma NoSuchSymbol(s: nat)
    ensures 286 <= s < 288 ==> !Bit(Leaf(LENS, s, 0).op, 16) && !Bit(Leaf(LENS, s, 0).op, 32) && Leaf(LENS, s, 0).op != 0
    ensures 30 <= s < 32 ==> !Bit(Leaf(DISTS, s, 0).op, 16)
  {
  }

  /** Whatever comes, a literal/length code means what the standard says. */
  lemma SymbolRule(w: nat, lens: seq<nat>, t: Tables, v: nat, s: nat)
    requires TableFor(w, LENS, lens, t.lens, t.lenbits) && s < |lens| && BeginsWith(w, lens, v, s)
    ensures s < 256 ==> Decode(t, v) == (Literal(s), Shr(v, lens[s]))
    ensures s == 256 ==> Decode(t, v) == (EndOfBlock, Shr(v, lens[s]))
    ensures 257 <= s < 261 ==> Decode(t, v) == DecodeDistance(t, s - 254, Shr(v, lens[s]))
    ensures 261 <= s < 285 ==>
              var x, v1 := (s - 257) / 4 - 1, Shr(v, lens[s]);
              Decode(t, v) == DecodeDistance(t, 3 + Shl(4 + (s - 257) % 4, x) + Low(v1, x), Shr(v1, x))
    ensures s == 285 ==> Decode(t, v) == DecodeDistance(t, 258, Shr(v, lens[s]))
    ensures s > 285 ==> Decode(t, v).0 == Invalid
  {
    hide Lookup, Shr, Low, Shl, TableFor, BeginsWith, DecodeDistance, LengthExtra, LengthBase, Leaf, Bit;
    Found(w, LENS, lens, t.lens, t.lenbits, v, s);
    var v1 := Shr(v, lens[s]);
    if s <= 256 {
      PlainLeaf(s);
    } else if s <= 285 {
      LengthLeaf(s - 257, 0);
      ExtraOp(LengthExtra(s - 257));
      LengthRule(s - 257);
      NoBits(v1);
    } else {
      NoSuchSymbol(s);
    }
  }

  lemma PlainLeaf(s: nat)
    requires s <= 256
    ensures Leaf(LENS, s, 0) == if s == 256 then Entry(96, 0, 0) else Entry(0, 0, s)
    ensures !Bit(96, 16) && Bit(96, 32)
  {
  }

  lemma NoBits(v: nat)
    ensures Low(v, 0) == 0 && Shr(v, 0) == v
  {
  }

  /** And so does a distance code. */
  lemma DistanceRule(w: nat, lens: seq<nat>, t: Tables, len: nat, v: nat, s: nat)
    requires TableFor(w, DISTS, lens, t.dists, t.distbits) && s < |lens| && BeginsWith(w, lens, v, s)
    ensures s < 2 ==> DecodeDistance(t, len, v) == (Pair(len, s + 1), Shr(v, lens[s]))
    ensures 2 <= s < 30 ==>
              var x, v1 := s / 2 - 1, Shr(v, lens[s]);
              DecodeDistance(t, len, v) == (Pair(len, 1 + Shl(2 + s % 2, x) + Low(v1, x)), Shr(v1, x))
    ensures s >= 30 ==> DecodeDistance(t, len, v).0 == Invalid
  {
    hide Lookup, Shr, Low, Shl, TableFor, BeginsWith, DistExtra, DistBase, Leaf, Bit;
    Found(w, DISTS, lens, t.dists, t.distbits, v, s);
    if s < 30 {
      DistLeaf(s, 0);
      ExtraOp(DistExtra(s));
      DistRule(s);
      NoBits(Shr(v, lens[s]));
    } else {
      NoSuchSymbol(s);
    }
  }

  /** Bits that begin with no code mean nothing. */
  lemma NoCodeRule(w: nat, lens: seq<nat>, t: Tables, len: nat, v: nat)
    requires LensOK(w, lens) && !BeginsWithCode(w, lens, v)
    ensures TableFor(w, LENS, lens, t.lens, t.lenbits) ==> Decode(t, v).0 == Invalid
    ensures TableFor(w, DISTS, lens, t.dists, t.distbits) ==> DecodeDistance(t, len, v).0 == Invalid
  {
    hide Lookup, BeginsWithCode, PointersAtRoot, Decodes;
  }

  /** Both tables are built for the lengths of the two alphabets. */
  ghost predicate TablesMatch(w: nat, t: Tables, l: Alphabet, d: Alphabet) {
    && AlphabetOK(w, l) && AlphabetOK(w, d)
    && TableFor(w, LENS, l.lens, t.lens, t.lenbits) && TableFor(w, DISTS, d.lens, t.dists, t.distbits)
  }

  lemma LiteralDecodes(w: nat, t: Tables, l: Alphabet, d: Alphabet, b: Byte, rest: nat)
    requires TablesMatch(w, t, l, d) && Has(l, b)
    ensures var v := l.codes[b] + Shl(rest, l.lens[b]);
            Decode(t, v) == (Literal(b), rest) && SymbolBits(t, v) == l.lens[b]
  {
    hide Lookup, Shl, Shr, Low, TableFor, AlphabetOK;
    LookupSent(w, LENS, l, t.lens, t.lenbits, b, rest);
  }

  lemma EndDecodes(w: nat, t: Tables, l: Alphabet, d: Alphabet, rest: nat)
    requires TablesMatch(w, t, l, d) && Has(l, END_BLOCK)
    ensures var v := l.codes[END_BLOCK] + Shl(rest, l.lens[END_BLOCK]);
            Decode(t, v) == (EndOfBlock, rest) && SymbolBits(t, v) == l.lens[END_BLOCK]
  {
    hide Lookup, Shl, Shr, Low, TableFor, AlphabetOK;
    LookupSent(w, LENS, l, t.lens, t.lenbits, END_BLOCK, rest);
  }

  /** A distance code and its extra bits. */
  lemma DistanceDecodes(w: nat, t: Tables, l: Alphabet, d: Alphabet, len: nat, e: nat, dist: nat, rest: nat)
    requires TablesMatch(w, t, l, d) && Has(d, e) && 1 <= dist && CoversDist(e, dist - 1)
    ensures var v := d.codes[e] + Shl(DistField(e, dist - 1).value + Shl(rest, DistExtra(e)), d.lens[e]);
            DecodeDistance(t, len, v) == (Pair(len, dist), rest) && DistanceBits(t, v) == d.lens[e] + DistExtra(e)
  {
    hide Lookup, Shl, Shr, Low, TableFor, AlphabetOK, Pow2, DistExtra, DistBase, Leaf, Bit, CoversDist;
    DistRange(e, dist - 1);
    var y := DistField(e, dist - 1).value;
    DistFits(e, dist - 1);
    LookupSent(w, DISTS, d, t.dists, t.distbits, e, y + Shl(rest, DistExtra(e)));
    DistLeaf(e, 0);
    ExtraOp(DistExtra(e));
    LowAddShl(y, rest, DistExtra(e));
  }

  /** A match: the length code, its extra bits, and the distance. */
  lemma MatchDecodes(w: nat, t: Tables, l: Alphabet, d: Alphabet, c: nat, len: nat, e: nat, dist: nat, rest: nat)
    requires TablesMatch(w, t, l, d) && Has(l, 257 + c) && Has(d, e) && 3 <= len && CoversLength(c, len - 3)
    requires 1 <= dist && CoversDist(e, dist - 1)
    ensures var v := l.codes[257 + c] + Shl(LengthField(c, len - 3).value
                       + Shl(d.codes[e] + Shl(DistField(e, dist - 1).value + Shl(rest, DistExtra(e)), d.lens[e]), LengthExtra(c)), l.lens[257 + c]);
            && Decode(t, v) == (Pair(len, dist), rest)
            && SymbolBits(t, v) == l.lens[257 + c] + LengthExtra(c) + d.lens[e] + DistExtra(e)
  {
    hide Lookup, Shl, Shr, Low, TableFor, AlphabetOK, Pow2, DistExtra, DistBase, LengthExtra, LengthBase, DecodeDistance, DistanceBits, Leaf, Bit, CoversDist, CoversLength;
    CodeRange(c, len - 3);
    DistRange(e, dist - 1);
    var x := LengthField(c, len - 3).value;
    var v1 := d.codes[e] + Shl(DistField(e, dist - 1).value + Shl(rest, DistExtra(e)), d.lens[e]);
    ExtraFits(c, len - 3);
    LookupSent(w, LENS, l, t.lens, t.lenbits, 257 + c, x + Shl(v1, LengthExtra(c)));
    LengthLeaf(c, 0);
    ExtraOp(LengthExtra(c));
    LowAddShl(x, v1, LengthExtra(c));
    DistanceDecodes(w, t, l, d, len, e, dist, rest);
    LengthValue(c, len - 3);
  }

  lemma LengthValue(c: nat, lc: nat)
    requires CoversLength(c, lc)
    ensures LengthBase(c) + 3 + LengthField(c, lc).value == lc + 3
  {
    LastLength();
  }

  /** What is sent for a token is decoded to it, using exactly its bits. */
  lemma TokenDecodes(w: nat, t: Tables, m: Maps, l: Alphabet, d: Alphabet, op: Op, rest: nat)
    requires TablesMatch(w, t, l, d) && Usable(m, l, d, op)
    ensures var fs := TokenFields(m, l, d, op);
            && Decode(t, FieldsBits(fs, rest)) == (SymbolOf(op), rest)
            && SymbolBits(t, FieldsBits(fs, rest)) == FieldsLength(fs)
  {
    hide Decode, SymbolBits, FieldsBits, FieldsLength, Shl, TablesMatch, CoversLength, CoversDist, LengthExtra, DistExtra, LengthBase, DistBase, MapsOK, Has, TokenFields,
      DistIndex, Usable;
    TokenParts(m, l, d, op);
    match op {
      case Lit(b) =>
        SingleField(SymbolField(l, b), rest);
        LiteralDecodes(w, t, l, d, b, rest);
      case Match(len, dist) =>
        PairDecodes(w, t, l, d, LengthSymbol(m, len), len, DistSymbol(m, dist), dist, rest);
    }
  }

  lemma TokenParts(m: Maps, l: Alphabet, d: Alphabet, op: Op)
    requires Usable(m, l, d, op)
    ensures op.Lit? ==> Has(l, op.b) && TokenFields(m, l, d, op) == [SymbolField(l, op.b)]
    ensures op.Match? ==>
              && 3 <= op.len <= 258 && 1 <= op.dist <= 32768 && |m.lcode| == 256 && |m.dcode| == 512
              && var c, e := LengthSymbol(m, op.len), DistSymbol(m, op.dist);
                 && Has(l, 257 + c) && Has(d, e) && CoversLength(c, op.len - 3) && CoversDist(e, op.dist - 1)
                 && TokenFields(m, l, d, op) == [SymbolField(l, 257 + c), LengthField(c, op.len - 3), SymbolField(d, e), DistField(e, op.dist - 1)]
  {
    hide CoversLength, CoversDist, LengthExtra, DistExtra, LengthBase, DistBase, MapsOK, DistIndex;
    if op.Match? {
      MapSizes(m);
      SymbolRange(m, op.len, op.dist);
    }
  }

  lemma PairDecodes(w: nat, t: Tables, l: Alphabet, d: Alphabet, c: nat, len: nat, e: nat, dist: nat, rest: nat)
    requires TablesMatch(w, t, l, d) && Has(l, 257 + c) && Has(d, e) && 3 <= len && CoversLength(c, len - 3)
    requires 1 <= dist && CoversDist(e, dist - 1)
    ensures var fs := [SymbolField(l, 257 + c), LengthField(c, len - 3), SymbolField(d, e), DistField(e, dist - 1)];
            && Decode(t, FieldsBits(fs, rest)) == (Pair(len, dist), rest)
            && SymbolBits(t, FieldsBits(fs, rest)) == FieldsLength(fs)
  {
    hide Decode, SymbolBits, FieldsBits, FieldsLength, Shl, TablesMatch, CoversLength, CoversDist, LengthExtra, DistExtra, LengthBase, DistBase;
    FourFields(SymbolField(l, 257 + c), LengthField(c, len - 3), SymbolField(d, e), DistField(e, dist - 1), rest);
    CodeRange(c, len - 3);
    DistRange(e, dist - 1);
    MatchDecodes(w, t, l, d, c, len, e, dist, rest);
  }

  /** The next token of a block: the decoder applies it. */
  lemma NextToken(w: nat, t: Tables, m: Maps, l: Alphabet, d: Alphabet, tokens: seq<Op>, rest: nat, h: seq<Byte>, wmax: nat, lost: nat)
    requires TablesMatch(w, t, l, d) && AllUsable(m, l, d, tokens) && Has(l, END_BLOCK) && tokens != [] && OpOK(h, tokens[0])
    requires InWindow(tokens, wmax) && Reach(lost, h, wmax)
    ensures var v := FieldsBits(BlockFields(m, l, d, tokens), rest);
            && Decode(t, v).0 == SymbolOf(tokens[0])
            && Next(t, lost, Progress(LEN, v, h)) == Progress(LEN, FieldsBits(BlockFields(m, l, d, tokens[1..]), rest), Apply(h, tokens[0]))
            && SymbolBits(t, v) + FieldsLength(BlockFields(m, l, d, tokens[1..])) == FieldsLength(BlockFields(m, l, d, tokens))
  {
    hide Decode, SymbolBits, FieldsBits, FieldsLength, TablesMatch, TokenFields, Usable, CopyBytes;
    var head, tail := TokenFields(m, l, d, tokens[0]), BlockFields(m, l, d, tokens[1..]);
    FieldsAppend(head, tail, rest);
    TokenDecodes(w, t, m, l, d, tokens[0], FieldsBits(tail, rest));
  }

  lemma NextEnd(w: nat, t: Tables, m: Maps, l: Alphabet, d: Alphabet, rest: nat, h: seq<Byte>, lost: nat)
    requires TablesMatch(w, t, l, d) && Has(l, END_BLOCK)
    ensures var v := FieldsBits(BlockFields(m, l, d, []), rest);
            && Decode(t, v).0 == EndOfBlock
            && Next(t, lost, Progress(LEN, v, h)) == Progress(TYPE, rest, h)
            && SymbolBits(t, v) == FieldsLength(BlockFields(m, l, d, []))
  {
    hide Decode, SymbolBits, FieldsBits, FieldsLength, TablesMatch;
    BlockEnd(m, l, d);
    SingleField(SymbolField(l, END_BLOCK), rest);
    EndDecodes(w, t, l, d, rest);
  }

  /** The bits v are those of the tokens and of what follows them; when the tokens are applied
      to the output h, the output is target. */
  ghost predicate TokensAhead(m: Maps, l: Alphabet, d: Alphabet, tokens: seq<Op>, rest: nat, wmax: nat, v: nat, h: seq<Byte>, target: seq<Byte>) {
    && AllUsable(m, l, d, tokens) && Has(l, END_BLOCK) && v == FieldsBits(BlockFields(m, l, d, tokens), rest)
    && InWindow(tokens, wmax) && OpsOK(h, tokens) && ApplyAll(h, tokens) == target
  }

  /** How many bits the tokens and the end of the block take. */
  ghost function BlockLength(m: Maps, l: Alphabet, d: Alphabet, tokens: seq<Op>): nat
    requires AllUsable(m, l, d, tokens) && Has(l, END_BLOCK)
  {
    FieldsLength(BlockFields(m, l, d, tokens))
  }

  /** One symbol of what is ahead. */
  lemma AheadNext(w: nat, t: Tables, m: Maps, l: Alphabet, d: Alphabet, tokens: seq<Op>, rest: nat, wmax: nat, v: nat, h: seq<Byte>, target: seq<Byte>, lost: nat)
    requires TablesMatch(w, t, l, d) && TokensAhead(m, l, d, tokens, rest, wmax, v, h, target) && Reach(lost, h, wmax)
    ensures AllUsable(m, l, d, tokens) && Has(l, END_BLOCK)
    ensures h <= Next(t, lost, Progress(LEN, v, h)).output <= target
    ensures Decode(t, v).0.Pair? ==> Decode(t, v).0.dist <= wmax
    ensures SymbolBits(t, v) <= BlockLength(m, l, d, tokens)
    ensures tokens == [] ==> Next(t, lost, Progress(LEN, v, h)) == Progress(TYPE, rest, target) && SymbolBits(t, v) == BlockLength(m, l, d, [])
    ensures tokens != [] ==>
              var p := Next(t, lost, Progress(LEN, v, h));
              && p.mode == LEN && TokensAhead(m, l, d, tokens[1..], rest, wmax, p.value, p.output, target)
              && SymbolBits(t, v) + BlockLength(m, l, d, tokens[1..]) == BlockLength(m, l, d, tokens)
  {
    hide Next, Decode, SymbolBits, FieldsBits, FieldsLength, BlockFields, TablesMatch, Usable, OpsOK, ApplyAll, CopyBytes, Reach;
    if tokens == [] {
      NextEnd(w, t, m, l, d, rest, h, lost);
      OutputNone(h);
    } else {
      OpsFirst(h, tokens);
      NextToken(w, t, m, l, d, tokens, rest, h, wmax, lost);
      OutputPrefix(Apply(h, tokens[0]), tokens[1..]);
      if tokens[0].Match? {
        CopyBytesPrefix(h, tokens[0].dist, tokens[0].len);
      }
    }
  }

  /** A whole block: n symbols are as many tokens, and one more ends the block. */
  lemma {:induction false} BlockDecodes(w: nat, t: Tables, m: Maps, l: Alphabet, d: Alphabet, tokens: seq<Op>, rest: nat, wmax: nat,
                                        v: nat, h: seq<Byte>, target: seq<Byte>, lost: nat, n: nat)
    requires TablesMatch(w, t, l, d) && TokensAhead(m, l, d, tokens, rest, wmax, v, h, target) && Reach(lost, h, wmax) && n <= |tokens| + 1
    ensures AllUsable(m, l, d, tokens) && Has(l, END_BLOCK)
    ensures var p := Steps(t, lost, Progress(LEN, v, h), n); var used := StepsBits(t, lost, Progress(LEN, v, h), n);
            && h <= p.output
            && (n == |tokens| + 1 ==> p == Progress(TYPE, rest, target) && used == BlockLength(m, l, d, tokens))
            && (n <= |tokens| ==> && p.mode == LEN && TokensAhead(m, l, d, tokens[n..], rest, wmax, p.value, p.output, target)
                                  && used + BlockLength(m, l, d, tokens[n..]) == BlockLength(m, l, d, tokens))
    decreases n
  {
    hide Next, Decode, SymbolBits, TokensAhead, BlockLength, TablesMatch, Usable;
    AheadUsable(m, l, d, tokens, rest, wmax, v, h, target);
    if n == 0 {
      assert tokens[0..] == tokens;
    } else {
      BlockDecodes(w, t, m, l, d, tokens, rest, wmax, v, h, target, lost, n - 1);
      var p := Steps(t, lost, Progress(LEN, v, h), n - 1);
      AheadNext(w, t, m, l, d, tokens[n - 1..], rest, wmax, p.value, p.output, target, lost);
      if n <= |tokens| {
        assert tokens[n - 1..][1..] == tokens[n..];
      } else {
        assert tokens[n - 1..] == [];
      }
    }
  }

  lemma AheadUsable(m: Maps, l: Alphabet, d: Alphabet, tokens: seq<Op>, rest: nat, wmax: nat, v: nat, h: seq<Byte>, target: seq<Byte>)
    requires TokensAhead(m, l, d, tokens, rest, wmax, v, h, target)
    ensures AllUsable(m, l, d, tokens) && Has(l, END_BLOCK)
  {
  }

  /** The end of a block is not passed: the decoder stops there. */
  lemma {:induction false} BlockEnds(w: nat, t: Tables, m: Maps, l: Alphabet, d: Alphabet, tokens: seq<Op>, rest: nat, wmax: nat,
                                     v: nat, h: seq<Byte>, target: seq<Byte>, lost: nat, n: nat)
    requires TablesMatch(w, t, l, d) && TokensAhead(m, l, d, tokens, rest, wmax, v, h, target) && Reach(lost, h, wmax) && n > |tokens|
    ensures Steps(t, lost, Progress(LEN, v, h), n) == Progress(TYPE, rest, target)
    decreases n
  {
    hide Decode, SymbolBits, TokensAhead, BlockLength, TablesMatch, Usable;
    if n == |tokens| + 1 {
      BlockDecodes(w, t, m, l, d, tokens, rest, wmax, v, h, target, lost, n);
    } else {
      BlockEnds(w, t, m, l, d, tokens, rest, wmax, v, h, target, lost, n - 1);
    }
  }
}
