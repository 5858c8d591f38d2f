/** Sending the literals and matches of a block with the codes of its two trees, and what
    the decoder makes of those bits. */
module BlockEncoder {
  import opened Bits
  import opened BitStream
  import opened Huffman
  import opened InflateTable
  import opened InflateWindow
  import opened History
  import opened LengthCodes
  import opened BlockDecoder
  import DynamicTrees
  import EncoderTree

  const END_BLOCK: nat := 256

  // ---------- fields of bits ----------

  datatype Field = Field(value: nat, width: nat)

  /** The bits of the fields, followed by rest. */
  ghost function FieldsBits(fs: seq<Field>, rest: nat): nat
    decreases |fs|
  {
    if fs == [] then rest else fs[0].value + Shl(FieldsBits(fs[1..], rest), fs[0].width)
  }

  ghost function FieldsLength(fs: seq<Field>): nat
    decreases |fs|
  {
    if fs == [] then 0 else fs[0].width + FieldsLength(fs[1..])
  }

  lemma {:induction false} FieldsRest(fs: seq<Field>, rest: nat)
    ensures FieldsBits(fs, rest) == FieldsBits(fs, 0) + Shl(rest, FieldsLength(fs))
    decreases |fs|
  {
    hide Shl;
    if fs == [] {
      ShlNone(rest);
    } else {
      FieldsRest(fs[1..], rest);
      ShlAdd(FieldsBits(fs[1..], 0), Shl(rest, FieldsLength(fs[1..])), fs[0].width);
      ShlShl(rest, FieldsLength(fs[1..]), fs[0].width);
    }
  }

  lemma {:induction false} FieldsAppend(a: seq<Field>, b: seq<Field>, rest: nat)
    ensures FieldsBits(a + b, rest) == FieldsBits(a, FieldsBits(b, rest))
    ensures FieldsLength(a + b) == FieldsLength(a) + FieldsLength(b)
    decreases |a|
  {
    if a == [] {
      assert a + b == b;
    } else {
      assert (a + b)[1..] == a[1..] + b;
      FieldsAppend(a[1..], b, rest);
    }
  }

  /** After the value v of length n, the fields were sent. */
  ghost predicate SentFields(v: nat, n: nat, fs: seq<Field>, value: nat, length: nat) {
    SentNumber(v, n, FieldsBits(fs, 0), FieldsLength(fs), value, length)
  }

  lemma SentMoreFields(v: nat, n: nat, a: seq<Field>, value: nat, length: nat, b: seq<Field>, value': nat, length': nat)
    requires SentFields(v, n, a, value, length) && SentFields(value, length, b, value', length')
    ensures SentFields(v, n, a + b, value', length')
  {
    hide FieldsBits, FieldsLength, SentNumber;
    SentThen(v, n, FieldsBits(a, 0), FieldsLength(a), value, length, FieldsBits(b, 0), FieldsLength(b), value', length');
    FieldsAppend(a, b, 0);
    FieldsRest(a, FieldsBits(b, 0));
  }

  lemma SentNoFields(v: nat, n: nat)
    ensures SentFields(v, n, [], v, n)
  {
    Shl0(n);
  }

  lemma OneField(f: Field)
    ensures FieldsBits([f], 0) == f.value && FieldsLength([f]) == f.width
  {
    assert [f][1..] == [];
    Shl0(f.width);
  }

  /** Sends one more field; nothing at all if it has no bits. */
  method SendField(out: BitWriter, f: Field, ghost v: nat, ghost n: nat, ghost sent: seq<Field>)
    requires out.Valid() && f.width <= 16 && f.value < Pow2(f.width) && SentFields(v, n, sent, out.Value(), out.Length())
    modifies out
    ensures out.Valid() && SentFields(v, n, sent + [f], out.Value(), out.Length())
  {
    hide Shl, Stream, SentFields, Pow2, FieldsBits, FieldsLength;
    ghost var v1, n1 := out.Value(), out.Length();
    OneField(f);
    NoWidth(f);
    if f.width != 0 {
      out.SendBits(f.value, f.width);
    } else {
      Shl0(n1);
    }
    OneSent(v1, n1, f, out.Value(), out.Length());
    SentMoreFields(v, n, sent, v1, n1, [f], out.Value(), out.Length());
  }

  lemma NoWidth(f: Field)
    requires f.value < Pow2(f.width)
    ensures f.width == 0 ==> f.value == 0
  {
  }

  lemma OneSent(v: nat, n: nat, f: Field, value: nat, length: nat)
    requires value == v + Shl(f.value, n) && length == n + f.width
    ensures SentFields(v, n, [f], value, length)
  {
    OneField(f);
  }

  // ---------- the symbols of a block ----------

  /** The lengths of the codes of an alphabet, and the codes. */
  datatype Alphabet = Alphabet(lens: seq<nat>, codes: seq<nat>)

  ghost predicate AlphabetOK(w: nat, a: Alphabet) {
    && w <= 15 && |a.codes| == |a.lens| && LensOK(w, a.lens)
    && forall n {:trigger a.codes[n]} :: 0 <= n < |a.lens| && a.lens[n] > 0 ==> a.codes[n] == CodeOf(w, a.lens, n)
  }

  predicate Has(a: Alphabet, s: nat) {
    s < |a.lens| && s < |a.codes| && a.lens[s] > 0
  }

  /** The encoder's maps from lengths and distances to their codes. */
  datatype Maps = Maps(lcode: seq<nat>, dcode: seq<nat>)

  ghost predicate MapsOK(m: Maps) {
    && |m.lcode| == 256 && |m.dcode| == 512
    && (forall lc {:trigger m.lcode[lc]} :: 0 <= lc < 256 ==> CoversLength(m.lcode[lc], lc))
    && (forall d {:trigger DistIndex(d)} :: 0 <= d < 32768 ==> CoversDist(m.dcode[DistIndex(d)], d))
  }

  predicate TokenOK(op: Op) {
    op.Match? ==> 3 <= op.len <= 258 && 1 <= op.dist <= 32768
  }

  function LengthSymbol(m: Maps, len: nat): (c: nat)
    requires |m.lcode| == 256 && 3 <= len <= 258
  {
    m.lcode[len - 3]
  }

  function DistSymbol(m: Maps, dist: nat): (c: nat)
    requires |m.dcode| == 512 && 1 <= dist <= 32768
  {
    m.dcode[DistIndex(dist - 1)]
  }

  /** The trees have codes for what the token needs. */
  ghost predicate Usable(m: Maps, l: Alphabet, d: Alphabet, op: Op) {
    && MapsOK(m) && TokenOK(op)
    && match op
       case Lit(b) => Has(l, b)
       case Match(len, dist) => Has(l, 257 + LengthSymbol(m, len)) && Has(d, DistSymbol(m, dist))
  }

  lemma SymbolRange(m: Maps, len: nat, dist: nat)
    requires MapsOK(m) && 3 <= len <= 258 && 1 <= dist <= 32768
    ensures CoversLength(LengthSymbol(m, len), len - 3) && CoversDist(DistSymbol(m, dist), dist - 1)
  {
    assert DistIndex(dist - 1) < 512;
  }

  ghost function SymbolField(a: Alphabet, s: nat): Field
    requires Has(a, s)
  {
    Field(a.codes[s], a.lens[s])
  }

  function LengthField(c: nat, lc: nat): Field
    requires CoversLength(c, lc)
  {
    Field(if c == 28 then 0 else lc - LengthBase(c), LengthExtra(c))
  }

  function DistField(c: nat, d: nat): Field
    requires CoversDist(c, d)
  {
    Field(d - DistBase(c), DistExtra(c))
  }

  /** What is sent for a literal or a match. */
  ghost function TokenFields(m: Maps, l: Alphabet, d: Alphabet, op: Op): seq<Field>
    requires Usable(m, l, d, op)
  {
    match op
    case Lit(b) => [SymbolField(l, b)]
    case Match(len, dist) =>
      SymbolRange(m, len, dist);
      var c, e := LengthSymbol(m, len), DistSymbol(m, dist);
      [SymbolField(l, 257 + c), LengthField(c, len - 3), SymbolField(d, e), DistField(e, dist - 1)]
  }

  ghost predicate AllUsable(m: Maps, l: Alphabet, d: Alphabet, tokens: seq<Op>) {
    forall i {:trigger tokens[i]} :: 0 <= i < |tokens| ==> Usable(m, l, d, tokens[i])
  }

  /** What is sent for a block. */
  ghost function BlockFields(m: Maps, l: Alphabet, d: Alphabet, tokens: seq<Op>): seq<Field>
    requires AllUsable(m, l, d, tokens) && Has(l, END_BLOCK)
    decreases |tokens|
  {
    if tokens == [] then [SymbolField(l, END_BLOCK)]
    else TokenFields(m, l, d, tokens[0]) + BlockFields(m, l, d, tokens[1..])
  }

  // ---------- sending ----------

  lemma SymbolFits(w: nat, a: Alphabet, s: nat)
    requires AlphabetOK(w, a) && Has(a, s)
    ensures a.lens[s] <= 15 && a.codes[s] < Pow2(a.lens[s])
  {
    hide CodeOf, Pow2;
    DynamicTrees.CodeBound(w, a.lens, s);
  }

  lemma ExtraFits(c: nat, lc: nat)
    requires CoversLength(c, lc)
    ensures LengthField(c, lc).value < Pow2(LengthExtra(c)) && LengthExtra(28) == 0
  {
    PowersAt(LengthExtra(c));
    LastLength();
  }

  lemma LastLength()
    ensures LengthExtra(28) == 0 && LengthBase(28) == 255 && Pow2(0) == 1
  {
  }

  lemma DistFits(c: nat, d: nat)
    requires CoversDist(c, d)
    ensures DistField(c, d).value < Pow2(DistExtra(c))
  {
    PowersAt(DistExtra(c));
  }

  /** Sends a literal or a match. */
  method SendToken(out: BitWriter, w: nat, m: Maps, lbase: seq<nat>, dbase: seq<nat>, l: Alphabet, d: Alphabet, op: Op)
    requires out.Valid() && AlphabetOK(w, l) && AlphabetOK(w, d) && Usable(m, l, d, op)
    requires |lbase| == 29 && (forall c {:trigger lbase[c]} :: 0 <= c < 28 ==> lbase[c] == LengthBase(c))
    requires |dbase| == 30 && (forall c {:trigger dbase[c]} :: 0 <= c < 30 ==> dbase[c] == DistBase(c))
    modifies out
    ensures out.Valid() && SentFields(old(out.Value()), old(out.Length()), TokenFields(m, l, d, op), out.Value(), out.Length())
  {
    hide SentFields, Stream, Shl, Pow2, AlphabetOK, CoversLength, CoversDist, DistBase, DistExtra, LengthBase, LengthExtra, MapsOK;
    ghost var v, n := out.Value(), out.Length();
    SentNoFields(v, n);
    match op {
      case Lit(b) =>
        SymbolFits(w, l, b);
        SendField(out, Field(l.codes[b], l.lens[b]), v, n, []);
        assert [] + [SymbolField(l, b)] == [SymbolField(l, b)];
      case Match(len, dist) =>
        SymbolRange(m, len, dist);
        MapSizes(m);
        var code := m.lcode[len - 3];
        CodeRange(code, len - 3);
        SymbolFits(w, l, 257 + code);
        ExtraFits(code, len - 3);
        SendField(out, Field(l.codes[code + 256 + 1], l.lens[code + 256 + 1]), v, n, []);
        ghost var f1 := [] + [SymbolField(l, 257 + code)];
        var lc := if LengthExtra(code) != 0 then len - 3 - lbase[code] else 0;
        NoExtraLength(code, len - 3);
        SendField(out, Field(lc, LengthExtra(code)), v, n, f1);
        ghost var f2 := f1 + [LengthField(code, len - 3)];
        var e := m.dcode[DistIndex(dist - 1)];
        DistRange(e, dist - 1);
        SymbolFits(w, d, e);
        DistFits(e, dist - 1);
        SendField(out, Field(d.codes[e], d.lens[e]), v, n, f2);
        ghost var f3 := f2 + [SymbolField(d, e)];
        SendField(out, Field(dist - 1 - dbase[e], DistExtra(e)), v, n, f3);
        assert f3 + [DistField(e, dist - 1)] == TokenFields(m, l, d, op);
    }
  }

  lemma MapSizes(m: Maps)
    requires MapsOK(m)
    ensures |m.lcode| == 256 && |m.dcode| == 512
  {
  }

  lemma CodeRange(c: nat, lc: nat)
    requires CoversLength(c, lc)
    ensures c < 29 && (c < 28 ==> LengthBase(c) <= lc)
  {
  }

  lemma DistRange(c: nat, d: nat)
    requires CoversDist(c, d)
    ensures c < 30 && DistBase(c) <= d && DistExtra(c) <= 13
  {
  }

  lemma NoExtraLength(c: nat, lc: nat)
    requires CoversLength(c, lc)
    ensures c == 28 ==> LengthExtra(c) == 0
    ensures LengthExtra(c) == 0 ==> LengthField(c, lc).value == 0
    ensures LengthExtra(c) <= 5
  {
    PowersAt(LengthExtra(c));
    LastLength();
  }

  /** Sends a block: its literals and matches, and the end-of-block symbol. */
  method CompressBlock(out: BitWriter, w: nat, m: Maps, lbase: seq<nat>, dbase: seq<nat>, l: Alphabet, d: Alphabet, tokens: seq<Op>)
    requires out.Valid() && AlphabetOK(w, l) && AlphabetOK(w, d) && AllUsable(m, l, d, tokens) && Has(l, END_BLOCK)
    requires |lbase| == 29 && (forall c {:trigger lbase[c]} :: 0 <= c < 28 ==> lbase[c] == LengthBase(c))
    requires |dbase| == 30 && (forall c {:trigger dbase[c]} :: 0 <= c < 30 ==> dbase[c] == DistBase(c))
    modifies out
    ensures out.Valid() && SentFields(old(out.Value()), old(out.Length()), BlockFields(m, l, d, tokens), out.Value(), out.Length())
  {
    hide SentFields, Stream, Shl, Pow2, AlphabetOK, BlockFields, TokenFields, Usable;
    ghost var v, n := out.Value(), out.Length();
    ghost var sent: seq<Field> := [];
    SentNoFields(v, n);
    assert tokens[0..] == tokens;
    var lx := 0;
    while lx < |tokens|
      invariant 0 <= lx <= |tokens| && out.Valid() && SentFields(v, n, sent, out.Value(), out.Length())
      invariant sent + BlockFields(m, l, d, tokens[lx..]) == BlockFields(m, l, d, tokens)
    {
      BlockStep(m, l, d, tokens, lx);
      ghost var v1, n1 := out.Value(), out.Length();
      SendToken(out, w, m, lbase, dbase, l, d, tokens[lx]);
      SentMoreFields(v, n, sent, v1, n1, TokenFields(m, l, d, tokens[lx]), out.Value(), out.Length());
      sent := sent + TokenFields(m, l, d, tokens[lx]);
      lx := lx + 1;
    }
    SymbolFits(w, l, END_BLOCK);
    SendField(out, Field(l.codes[END_BLOCK], l.lens[END_BLOCK]), v, n, sent);
    BlockEnd(m, l, d);
    assert tokens[|tokens|..] == [];
  }

  lemma BlockStep(m: Maps, l: Alphabet, d: Alphabet, tokens: seq<Op>, i: nat)
    requires AllUsable(m, l, d, tokens) && Has(l, END_BLOCK) && i < |tokens|
    ensures BlockFields(m, l, d, tokens[i..]) == TokenFields(m, l, d, tokens[i]) + BlockFields(m, l, d, tokens[i + 1..])
  {
    assert tokens[i..][1..] == tokens[i + 1..];
  }

  lemma BlockEnd(m: Maps, l: Alphabet, d: Alphabet)
    requires Has(l, END_BLOCK)
    ensures BlockFields(m, l, d, []) == [SymbolField(l, END_BLOCK)]
  {
  }
}
