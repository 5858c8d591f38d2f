/** Decoding the symbols of a compressed block: what one symbol means, looking up codes in
    all the bits that are left, and what a table finds with fewer bits. */
module BlockDecoder {
  import opened Bits
  import opened BitStream
  import opened BitInput
  import opened Huffman
  import opened InflateTable
  import opened History

  /** What inflate_table promises of a table for the code lengths lens. */
  ghost predicate TableFor(w: nat, kind: CodeType, lens: seq<nat>, table: map<nat, Entry>, root: nat) {
    && w <= 15 && LensOK(w, lens) && |lens| <= MaxSymbols(kind)
    && (forall n: nat, h: nat {:trigger BeginsWith(w, lens, h, n)} ::
          n < |lens| && BeginsWith(w, lens, h, n) ==> Decodes(table, root, h, kind, n, lens[n]))
    && (forall h: nat {:trigger Lookup(table, root, h)} ::
          !BeginsWithCode(w, lens, h) ==> Lookup(table, root, h) == (Entry(64, 1, 0), 1))
    && (MaxLen(lens) > 1 ==> forall h: nat {:trigger BeginsWithCode(w, lens, h)} :: BeginsWithCode(w, lens, h))
    && PointersAtRoot(table, root)
  }

  /** Builds a table; whatever is not rejected and fits makes one. */
  method BuildTable(w: nat, kind: CodeType, lens: seq<nat>, bits: nat) returns (ret: int, table: map<nat, Entry>, root: nat, used: nat)
    requires 1 <= w <= 15 && LensOK(w, lens) && |lens| <= MaxSymbols(kind)
    ensures ret == -1 <==> !Acceptable(w, lens, kind)
    ensures ret == 0 || ret == -1 || (ret == 1 && kind == LENS)
    ensures kind == LENS && bits == 9 ==> ret != 1 && used <= 864
    ensures kind == DISTS && bits == 6 && ret == 0 ==> used <= 608
    ensures ret == 0 ==> TableFor(w, kind, lens, table, root) && (MaxLen(lens) <= bits ==> RootShape(table))
  {
    hide Kraft, Pow2, Lookup, BeginsWith, BeginsWithCode, Decodes, PointersAtRoot, RootShape, Acceptable;
    RejectedIff(w, lens, kind);
    ret, table, root, used := Build(w, kind, lens, bits);
    if ret == 0 && MaxLen(lens) > 1 {
      NoOthers(w, lens);
    }
  }

  predicate Bit(op: nat, b: nat)
    requires b > 0
  {
    (op / b) % 2 == 1
  }

  /** The entries for literals and lengths: lengths are 3..258. */
  ghost predicate LenEntry(op: nat, val: nat) {
    || (op == 0 && val < 256)
    || (16 <= op <= 21 && 3 <= val && val + Pow2(op - 16) <= 259)
    || op == 64 || op == 96 || op == 196 || op == 201
  }

  /** The entries for distances, with at most 13 extra bits. */
  ghost predicate DistEntry(op: nat, val: nat) {
    (16 <= op <= 29 && 1 <= val) || op == 64
  }

  lemma ExtraPowers()
    ensures Pow2(0) == 1 && Pow2(1) == 2 && Pow2(2) == 4 && Pow2(3) == 8 && Pow2(4) == 16 && Pow2(5) == 32
  {
  }

  lemma LengthBases(i: nat)
    requires i < 31
    ensures |LEXT| == |LBASE| == 31
    ensures LEXT[i] == 196 || LEXT[i] == 201 ||
            (16 <= LEXT[i] <= 21 && 3 <= LBASE[i] &&
             LBASE[i] + [1, 2, 4, 8, 16, 32][LEXT[i] - 16] <= 259)
  {
  }

  lemma LeafIsLenEntry(sym: nat, bits: nat)
    requires sym < MaxSymbols(LENS)
    ensures var e := Leaf(LENS, sym, bits); LenEntry(e.op, e.val)
  {
    hide Pow2;
    ExtraPowers();
    if sym > 256 {
      LengthBases(sym - 257);
    }
  }

  lemma LeafIsDistEntry(sym: nat, bits: nat)
    requires sym < MaxSymbols(DISTS)
    ensures var e := Leaf(DISTS, sym, bits); DistEntry(e.op, e.val)
  {
  }

  /** What a lookup finds is an entry of its kind and uses at most 15 bits. */
  lemma LookupShape(w: nat, kind: CodeType, lens: seq<nat>, table: map<nat, Entry>, root: nat, h: nat)
    requires TableFor(w, kind, lens, table, root)
    ensures var (e, n) := Lookup(table, root, h);
            1 <= n <= 15 && !Pointer(e) && (kind == LENS ==> LenEntry(e.op, e.val)) && (kind == DISTS ==> DistEntry(e.op, e.val))
  {
    hide BeginsWith, Lookup, Leaf, LenEntry, DistEntry;
    var (e, n) := Lookup(table, root, h);
    if BeginsWithCode(w, lens, h) {
      var s: nat :| s < |lens| && BeginsWith(w, lens, h, s);
      assert Decodes(table, root, h, kind, s, lens[s]);
      BeginsHasCode(w, lens, h, s);
      if kind == LENS {
        LeafIsLenEntry(s, e.bits);
      } else if kind == DISTS {
        LeafIsDistEntry(s, e.bits);
      }
    } else {
      Markers();
    }
  }

  lemma BeginsHasCode(w: nat, lens: seq<nat>, h: nat, s: nat)
    requires LensOK(w, lens) && s < |lens| && BeginsWith(w, lens, h, s)
    ensures lens[s] > 0
  {
  }

  lemma Markers()
    ensures LenEntry(64, 0) && DistEntry(64, 0)
  {
  }

  /** The same symbol is found whatever comes after the longest code. */
  lemma SameLookup(w: nat, kind: CodeType, lens: seq<nat>, table: map<nat, Entry>, root: nat, g: nat, h: nat)
    requires TableFor(w, kind, lens, table, root) && Low(g, w) == Low(h, w)
    ensures var (e, n) := Lookup(table, root, g); var (f, m) := Lookup(table, root, h);
            e.op == f.op && e.val == f.val && n == m
  {
    hide Lookup, Low, CodeOf;
    if BeginsWithCode(w, lens, h) {
      var s: nat :| s < |lens| && BeginsWith(w, lens, h, s);
      SameBeginning(w, lens, h, g, s);
      assert Decodes(table, root, h, kind, s, lens[s]);
      assert Decodes(table, root, g, kind, s, lens[s]);
      LeafParts(kind, s, Lookup(table, root, h).0.bits, Lookup(table, root, g).0.bits);
    } else {
      forall s: nat | s < |lens| ensures !BeginsWith(w, lens, g, s) {
        if BeginsWith(w, lens, g, s) {
          SameBeginning(w, lens, g, h, s);
        }
      }
    }
  }

  lemma LeafParts(kind: CodeType, sym: nat, a: nat, b: nat)
    requires sym < MaxSymbols(kind)
    ensures Leaf(kind, sym, a).op == Leaf(kind, sym, b).op && Leaf(kind, sym, a).val == Leaf(kind, sym, b).val
  {
  }

  lemma SameBeginning(w: nat, lens: seq<nat>, g: nat, h: nat, s: nat)
    requires LensOK(w, lens) && Low(g, w) == Low(h, w) && s < |lens| && BeginsWith(w, lens, g, s)
    ensures BeginsWith(w, lens, h, s)
  {
    LowLow(g, w, lens[s]);
    LowLow(h, w, lens[s]);
  }

  // ---------- what a table finds with the bits at hand ----------

  /** What is found with the bits at hand, if it uses no more than those, is what all bits say. */
  lemma EnoughBits(w: nat, kind: CodeType, lens: seq<nat>, table: map<nat, Entry>, root: nat, hold: nat, bits: nat, high: nat)
    requires TableFor(w, kind, lens, table, root) && hold < Pow2(bits) && Lookup(table, root, hold).1 <= bits
    ensures var (e, n) := Lookup(table, root, hold); var (f, m) := Lookup(table, root, hold + Shl(high, bits));
            e.op == f.op && e.val == f.val && n == m
  {
    hide Lookup, Low, Shl, Pow2, CodeOf, BeginsWith, PointersAtRoot;
    var v := hold + Shl(high, bits);
    if BeginsWithCode(w, lens, hold) {
      var s: nat :| s < |lens| && BeginsWith(w, lens, hold, s);
      assert Decodes(table, root, hold, kind, s, lens[s]);
      BeginsToo(w, lens, hold, bits, high, s);
      assert Decodes(table, root, v, kind, s, lens[s]);
      LeafParts(kind, s, Lookup(table, root, hold).0.bits, Lookup(table, root, v).0.bits);
    } else {
      forall s: nat | s < |lens| ensures !BeginsWith(w, lens, v, s) {
        MaxLenBound(w, lens);
        if BeginsWith(w, lens, v, s) {
          BeginsToo(w, lens, hold, bits, high, s);
        }
      }
    }
  }

  /** If all bits say that the code is among the bits at hand, those find it. */
  lemma EnoughFound(w: nat, kind: CodeType, lens: seq<nat>, table: map<nat, Entry>, root: nat, hold: nat, bits: nat, high: nat)
    requires TableFor(w, kind, lens, table, root) && hold < Pow2(bits) && Lookup(table, root, hold + Shl(high, bits)).1 <= bits
    ensures Lookup(table, root, hold).1 <= bits
  {
    hide Lookup, Low, Shl, Pow2, CodeOf, BeginsWith, PointersAtRoot;
    var v := hold + Shl(high, bits);
    if BeginsWithCode(w, lens, v) {
      var s: nat :| s < |lens| && BeginsWith(w, lens, v, s);
      assert Decodes(table, root, v, kind, s, lens[s]);
      BeginsToo(w, lens, hold, bits, high, s);
      assert Decodes(table, root, hold, kind, s, lens[s]);
    } else {
      forall s: nat | s < |lens| ensures !BeginsWith(w, lens, hold, s) {
        MaxLenBound(w, lens);
        if BeginsWith(w, lens, hold, s) {
          BeginsToo(w, lens, hold, bits, high, s);
        }
      }
    }
  }

  // ---------- what a symbol means ----------

  datatype Mode = LEN | TYPE | BAD

  datatype Tables = Tables(lens: map<nat, Entry>, lenbits: nat, dists: map<nat, Entry>, distbits: nat)

  datatype Symbol = Literal(b: Byte) | Pair(len: nat, dist: nat) | EndOfBlock | Invalid

  /** The next symbol of the block and the bits after it. */
  ghost function Decode(t: Tables, v: nat): (Symbol, nat) {
    var (e, n) := Lookup(t.lens, t.lenbits, v);
    AfterCode(t, e.op, e.val, Shr(v, n))
  }

  /** What follows the code of a literal or length. */
  ghost function AfterCode(t: Tables, op: nat, val: nat, v: nat): (Symbol, nat) {
    if op == 0 then (Literal(val % 256), v)
    else if Bit(op, 16) then DecodeDistance(t, val + Low(v, op % 16), Shr(v, op % 16))
    else if Bit(op, 32) then (EndOfBlock, v)
    else (Invalid, v)
  }

  ghost function DecodeDistance(t: Tables, len: nat, v: nat): (Symbol, nat) {
    var (f, m) := Lookup(t.dists, t.distbits, v);
    var v1 := Shr(v, m);
    if Bit(f.op, 16) then (Pair(len, f.val + Low(v1, f.op % 16)), Shr(v1, f.op % 16)) else (Invalid, v1)
  }

  /** The bits that are left and all output so far. */
  datatype Progress = Progress(mode: Mode, value: nat, output: seq<Byte>)

  /** Decodes one literal, match or end of block. Distances reach back to all output but
      the first lost bytes. */
  ghost function Next(t: Tables, lost: nat, p: Progress): Progress {
    if p.mode != LEN then p
    else var (s, v) := Decode(t, p.value); PutOut(s, v, lost, p.output)
  }

  /** All output but the first lost bytes, and at least wmax bytes of it, can be reached. */
  ghost predicate Reach(lost: int, h: seq<Byte>, wmax: nat) {
    lost == 0 || (0 < lost && lost + wmax <= |h|)
  }

  /** What a symbol does to the output. */
  ghost function PutOut(s: Symbol, v: nat, lost: nat, output: seq<Byte>): Progress {
    match s
    case Literal(b) => Progress(LEN, v, output + [b])
    case Pair(len, dist) =>
      if 1 <= dist && dist + lost <= |output| then Progress(LEN, v, CopyBytes(output, dist, len))
      else Progress(BAD, v, output)
    case EndOfBlock => Progress(TYPE, v, output)
    case Invalid => Progress(BAD, v, output)
  }

  /** The bits that the next symbol takes. */
  ghost function SymbolBits(t: Tables, v: nat): nat {
    var (e, n) := Lookup(t.lens, t.lenbits, v);
    n + AfterBits(t, e.op, Shr(v, n))
  }

  ghost function AfterBits(t: Tables, op: nat, v: nat): nat {
    if Bit(op, 16) then op % 16 + DistanceBits(t, Shr(v, op % 16)) else 0
  }

  ghost function DistanceBits(t: Tables, v: nat): nat {
    var (f, m) := Lookup(t.dists, t.distbits, v);
    m + if Bit(f.op, 16) then f.op % 16 else 0
  }

  ghost function Steps(t: Tables, lost: nat, p: Progress, n: nat): Progress {
    if n == 0 then p else Next(t, lost, Steps(t, lost, p, n - 1))
  }

  /** The bits that n symbols take. */
  ghost function StepsBits(t: Tables, lost: nat, p: Progress, n: nat): nat {
    if n == 0 then 0 else StepsBits(t, lost, p, n - 1) + SymbolBits(t, Steps(t, lost, p, n - 1).value)
  }

  /** From value v with a bits left, some bits were used up. */
  ghost predicate Moved(v: nat, a: nat, v': nat, a': nat) {
    a' <= a && v' == Shr(v, a - a')
  }

  lemma MovedNone(v: nat, a: nat)
    ensures Moved(v, a, v, a)
  {
  }

  lemma MovedMore(v: nat, a: nat, v1: nat, a1: nat, v2: nat, a2: nat)
    requires Moved(v, a, v1, a1) && Moved(v1, a1, v2, a2)
    ensures Moved(v, a, v2, a2)
  {
    hide Shr;
    ShrShr(v, a - a1, a1 - a2);
  }
}
