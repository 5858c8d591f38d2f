/** The decoding loop of inflate_fast: it looks up codes with at least 15 bits at hand,
    takes no more than six bytes of input for a symbol, and decodes what Next says. */
module FastDecode {
  import opened Bits
  import opened BitStream
  import opened BitInput
  import opened Huffman
  import opened InflateTable
  import opened History
  import opened InflateWindow
  import opened FastCopy
  import opened BlockDecoder

  /** The first level says that there is a second. */
  predicate SecondLevel(op: nat) {
    op != 0 && !Bit(op, 16) && !Bit(op, 64)
  }

  lemma SecondIsPointer(w: nat, kind: CodeType, lens: seq<nat>, table: map<nat, Entry>, root: nat, h: nat)
    requires TableFor(w, kind, lens, table, root) && kind != CODES
    ensures var e := Get(table, Low(h, root)); SecondLevel(e.op) <==> Pointer(e)
    ensures !SecondLevel(Lookup(table, root, h).0.op)
  {
    LookupShape(w, kind, lens, table, root, h);
    OpBits(Lookup(table, root, h).0.op);
    OpBits(Get(table, Low(h, root)).op);
  }

  lemma OpBits(op: nat)
    ensures 0 < op < 16 ==> SecondLevel(op)
    ensures op == 0 || 16 <= op <= 29 || op == 64 || op == 96 || op == 196 || op == 201 ==> !SecondLevel(op)
  {
  }

  /** Finds the next symbol of a code and uses up its bits. */
  method FastSymbol(rd: BitReader, table: map<nat, Entry>, root: nat, ghost w: nat, ghost kind: CodeType, ghost lens: seq<nat>)
    returns (e: Entry)
    requires rd.Valid() && rd.bits >= 15 && TableFor(w, kind, lens, table, root) && kind != CODES
    modifies rd`pos, rd`hold, rd`bits
    ensures rd.Valid() && rd.pos == old(rd.pos)
    ensures var (f, n) := Lookup(table, root, old(rd.Value()));
            && e.op == f.op && e.val == f.val && n <= 15 && rd.bits == old(rd.bits) - n
            && rd.Value() == Shr(old(rd.Value()), n) && rd.Avail() + n == old(rd.Avail())
    ensures Moved(old(rd.Value()), old(rd.Avail()), rd.Value(), rd.Avail())
  {
    hide TableFor, Low, Shl, Shr, Stream, Pow2, SecondLevel;
    ghost var v, h := rd.Value(), rd.hold;
    HoldIsEnough(rd, w, kind, lens, table, root);
    LookupShape(w, kind, lens, table, root, h);
    SecondIsPointer(w, kind, lens, table, root, h);
    e := Get(table, Low(rd.hold, root));
    ghost var first := e.bits;
    rd.DropBits(e.bits);
    if SecondLevel(e.op) {
      ShrLow(h, e.bits, e.op);
      e := Get(table, e.val + Low(rd.hold, e.op));
      ShrShr(v, first, e.bits);
      rd.DropBits(e.bits);
    }
  }

  lemma HoldIsEnough(rd: BitReader, w: nat, kind: CodeType, lens: seq<nat>, table: map<nat, Entry>, root: nat)
    requires rd.Valid() && rd.bits >= 15 && TableFor(w, kind, lens, table, root)
    ensures var (e, n) := Lookup(table, root, rd.hold); var (f, m) := Lookup(table, root, rd.Value());
            e.op == f.op && e.val == f.val && n == m
  {
    hide Lookup, Low, Shl, Pow2;
    PartOfLow(rd.hold, Stream(rd.input[rd.pos..]), rd.bits, w);
    SameLookup(w, kind, lens, table, root, rd.hold, rd.Value());
  }

  /** Two more bytes if fewer than 15 bits are left. */
  method Fill15(rd: BitReader)
    requires rd.Valid() && (rd.bits < 15 ==> rd.pos + 2 <= rd.limit)
    modifies rd`pos, rd`hold, rd`bits
    ensures rd.Valid() && rd.Value() == old(rd.Value()) && rd.Avail() == old(rd.Avail()) && rd.bits >= 15
    ensures rd.bits == (if old(rd.bits) < 15 then old(rd.bits) + 16 else old(rd.bits))
    ensures rd.pos == (if old(rd.bits) < 15 then old(rd.pos) + 2 else old(rd.pos))
  {
    hide Shl, Stream, Pow2;
    if rd.bits < 15 {
      rd.Pull();
      rd.Pull();
    }
  }

  /** The extra bits of a length or distance: at most two more bytes are needed. */
  method Extra(rd: BitReader, n: nat) returns (x: nat)
    requires rd.Valid() && n <= 13 && (rd.bits < n ==> rd.pos < rd.limit) && (rd.bits + 8 < n ==> rd.pos + 2 <= rd.limit)
    modifies rd`pos, rd`hold, rd`bits
    ensures rd.Valid() && x == Low(old(rd.Value()), n) && rd.Value() == Shr(old(rd.Value()), n) && rd.Avail() + n == old(rd.Avail())
    ensures var k := if old(rd.bits) >= n then 0 else if old(rd.bits) + 8 >= n then 1 else 2;
            rd.pos == old(rd.pos) + k && rd.bits == old(rd.bits) + 8 * k - n
  {
    hide Shl, Shr, Low, Stream, Pow2;
    if rd.bits < n {
      rd.Pull();
      if rd.bits < n {
        rd.Pull();
      }
    }
    x := rd.Peek(n);
    rd.DropBits(n);
  }

  /** Both tables are as inflate_table builds them. */
  ghost predicate TablesFor(t: Tables, w: nat, llens: seq<nat>, dlens: seq<nat>) {
    TableFor(w, LENS, llens, t.lens, t.lenbits) && TableFor(w, DISTS, dlens, t.dists, t.distbits)
  }

  ghost function Here(rd: BitReader, z: Inflater, mode: Mode): Progress
    requires rd.Valid() && z.put <= z.out.Length
    reads rd, z, z.out
  {
    Progress(mode, rd.Value(), z.Output())
  }

  /** How much of the output of earlier calls is no longer in the window. */
  ghost function Lost(z: Inflater): int
    reads z
  {
    |z.before| - z.whave
  }

  lemma LengthOp(op: nat, val: nat)
    requires LenEntry(op, val)
    ensures op == 0 ==> val < 256
    ensures Bit(op, 16) ==> 16 <= op <= 21
  {
  }

  lemma LengthBound(op: nat, val: nat, v: nat)
    requires LenEntry(op, val) && 16 <= op <= 21
    ensures op % 16 <= 5 && 3 <= val + Low(v, op % 16) <= 258
  {
    assert op % 16 == op - 16;
  }

  lemma DistOp(op: nat, val: nat)
    requires DistEntry(op, val)
    ensures Bit(op, 16) ==> op % 16 <= 13 && 1 <= val
  {
  }

  /** After a length, its extra bits, the distance code and its extra bits. */
  method FastPair(rd: BitReader, t: Tables, op: nat, val: nat, ghost w: nat, ghost llens: seq<nat>, ghost dlens: seq<nat>)
    returns (s: Symbol)
    requires rd.Valid() && TablesFor(t, w, llens, dlens) && LenEntry(op, val) && Bit(op, 16)
    requires rd.pos + (if rd.bits >= 1 then 4 else 5) <= rd.limit
    modifies rd`pos, rd`hold, rd`bits
    ensures rd.Valid() && old(rd.pos) <= rd.pos <= old(rd.pos) + if old(rd.bits) >= 1 then 4 else 5
    ensures (s, rd.Value()) == DecodeDistance(t, val + Low(old(rd.Value()), op % 16), Shr(old(rd.Value()), op % 16))
    ensures s.Invalid? || (s.Pair? && 3 <= s.len <= 258 && 1 <= s.dist)
    ensures rd.Avail() + op % 16 + DistanceBits(t, Shr(old(rd.Value()), op % 16)) == old(rd.Avail())
    ensures Moved(old(rd.Value()), old(rd.Avail()), rd.Value(), rd.Avail())
  {
    hide Shl, Shr, Low, Stream, Pow2, TableFor, Lookup, LenEntry, DistEntry;
    ghost var v, a := rd.Value(), rd.Avail();
    LengthOp(op, val);
    LengthBound(op, val, v);
    var x := Extra(rd, op % 16);
    ghost var v2, a2 := rd.Value(), rd.Avail();
    Fill15(rd);
    LookupShape(w, DISTS, dlens, t.dists, t.distbits, v2);
    var f := FastSymbol(rd, t.dists, t.distbits, w, DISTS, dlens);
    ghost var v3, a3 := rd.Value(), rd.Avail();
    MovedMore(v, a, v2, a2, v3, a3);
    DistOp(f.op, f.val);
    if Bit(f.op, 16) {
      var y := Extra(rd, f.op % 16);
      MovedMore(v, a, v3, a3, rd.Value(), rd.Avail());
      return Pair(val + x, f.val + y);
    }
    return Invalid;
  }

  /** Reads one symbol: at most six bytes of input. */
  method FastRead(rd: BitReader, t: Tables, ghost w: nat, ghost llens: seq<nat>, ghost dlens: seq<nat>) returns (s: Symbol)
    requires rd.Valid() && TablesFor(t, w, llens, dlens) && rd.pos + 6 <= rd.limit
    modifies rd`pos, rd`hold, rd`bits
    ensures rd.Valid() && old(rd.pos) <= rd.pos <= old(rd.pos) + 6
    ensures (s, rd.Value()) == Decode(t, old(rd.Value()))
    ensures rd.Avail() + SymbolBits(t, old(rd.Value())) == old(rd.Avail())
    ensures s.Pair? ==> 3 <= s.len <= 258 && 1 <= s.dist
    ensures Moved(old(rd.Value()), old(rd.Avail()), rd.Value(), rd.Avail())
  {
    hide Shl, Shr, Low, Stream, Pow2, TableFor, Lookup, LenEntry, DecodeDistance, DistanceBits;
    ghost var v, a := rd.Value(), rd.Avail();
    Fill15(rd);
    LookupShape(w, LENS, llens, t.lens, t.lenbits, v);
    var e := FastSymbol(rd, t.lens, t.lenbits, w, LENS, llens);
    ghost var v1, a1 := rd.Value(), rd.Avail();
    LengthOp(e.op, e.val);
    NoBits();
    if e.op == 0 {
      return Literal(e.val);
    }
    if Bit(e.op, 16) {
      s := FastPair(rd, t, e.op, e.val, w, llens, dlens);
      MovedMore(v, a, v1, a1, rd.Value(), rd.Avail());
      return;
    }
    if Bit(e.op, 32) {
      return EndOfBlock;
    }
    return Invalid;
  }

  lemma NoBits()
    ensures !Bit(0, 16)
  {
  }

  /** One turn of the loop: at most six bytes of input, at most 258 bytes of output, and
      exactly what one symbol means. */
  method FastStep(rd: BitReader, z: Inflater, t: Tables, ghost w: nat, ghost llens: seq<nat>, ghost dlens: seq<nat>) returns (mode: Mode)
    requires rd.Valid() && z.Valid() && TablesFor(t, w, llens, dlens)
    requires rd.pos + 6 <= rd.limit && z.put + 258 <= z.out.Length
    modifies rd`pos, rd`hold, rd`bits, z`put, z.out
    ensures rd.Valid() && z.Valid() && z.before == old(z.before)
    ensures old(rd.pos) <= rd.pos <= old(rd.pos) + 6 && old(z.put) <= z.put <= old(z.put) + 258
    ensures mode == LEN ==> old(z.put) < z.put
    ensures Lost(z) >= 0 && Here(rd, z, mode) == Next(t, Lost(z), old(Here(rd, z, LEN)))
    ensures Moved(old(rd.Value()), old(rd.Avail()), rd.Value(), rd.Avail())
    ensures rd.Avail() + SymbolBits(t, old(rd.Value())) == old(rd.Avail())
  {
    hide Shl, Shr, Low, Stream, Pow2, WindowHolds, Copied, TablesFor, CopyBytes, Decode, Moved, Lookup, SymbolBits;
    WindowReach(z.window[..], z.wsize, z.whave, z.write, z.before);
    ghost var h := z.Output();
    var s := FastRead(rd, t, w, llens, dlens);
    match s {
      case Literal(b) =>
        z.Literal(b);
        return LEN;
      case Pair(len, dist) =>
        var bad := FastMatch(z, dist, len);
        if bad {
          return BAD;
        }
        CopiedIsCopyBytes(h, dist, len, z.Output());
        return LEN;
      case EndOfBlock =>
        return TYPE;
      case Invalid =>
        return BAD;
    }
  }

  /** Bytes that were taken but not used are given back: there are as many, because all bits
      that were at hand at first have been used, or they were less than a byte. */
  lemma GivenBack(input: seq<Byte>, limit: nat, pos: nat, hold: nat, bits: nat, pos0: nat, hold0: nat, bits0: nat)
    requires pos0 <= pos <= limit <= |input| && hold < Pow2(bits) && hold0 < Pow2(bits0)
    requires bits0 < 8 || bits + 8 * (limit - pos) + bits0 <= bits0 + 8 * (limit - pos0)
    requires Moved(hold0 + Shl(Stream(input[pos0..]), bits0), bits0 + 8 * (limit - pos0),
                   hold + Shl(Stream(input[pos..]), bits), bits + 8 * (limit - pos))
    ensures var k := bits / 8;
            && pos0 <= pos - k && Low(hold, bits % 8) < Pow2(bits % 8)
            && Low(hold, bits % 8) + Shl(Stream(input[pos - k..]), bits % 8) == hold + Shl(Stream(input[pos..]), bits)
  {
    hide Shl, Shr, Low, Stream, Pow2;
    var k, b := bits / 8, bits % 8;
    BackInRange(limit, pos, bits, pos0, bits0);
    var t0, t := hold0 + Shl(Stream(input[pos0..]), bits0), hold + Shl(Stream(input[pos..]), bits);
    var c := bits0 + 8 * (limit - pos0) - (bits + 8 * (limit - pos));
    assert t == Shr(t0, c);
    PartOfLow(hold, Stream(input[pos..]), bits, b);
    LowShr(t, b);
    ShrShr(t0, c, b);
    ShrShr(t0, bits0, 8 * (pos - k - pos0));
    LowAddShl(hold0, Stream(input[pos0..]), bits0);
    StreamTail(input[pos0..], pos - k - pos0);
    assert input[pos0..][pos - k - pos0..] == input[pos - k..];
  }

  lemma BackInRange(limit: nat, pos: nat, bits: nat, pos0: nat, bits0: nat)
    requires pos0 <= pos <= limit && bits + 8 * (limit - pos) <= bits0 + 8 * (limit - pos0)
    requires bits0 < 8 || bits + 8 * (limit - pos) + bits0 <= bits0 + 8 * (limit - pos0)
    ensures pos0 <= pos - bits / 8
    ensures bits0 + 8 * (limit - pos0) - (bits + 8 * (limit - pos)) + bits % 8 == bits0 + 8 * (pos - bits / 8 - pos0)
  {
    assert bits == 8 * (bits / 8) + bits % 8;
  }

  lemma {:induction false} StreamTail(s: seq<Byte>, k: nat)
    requires k <= |s|
    ensures Shr(Stream(s), 8 * k) == Stream(s[k..])
    decreases k
  {
    hide Shl, Shr, Low, Pow2;
    if k == 0 {
      assert s[0..] == s;
      ShrNothing(Stream(s));
    } else {
      StreamTail(s[1..], k - 1);
      assert s[1..][k - 1..] == s[k..];
      Pow2Eight();
      LowAddShl(s[0], Stream(s[1..]), 8);
      ShrShr(Stream(s), 8, 8 * (k - 1));
    }
  }

  lemma ShrNothing(x: nat)
    ensures Shr(x, 0) == x
  {
  }

  ghost function LengthCodeBits(t: Tables, v: nat): nat {
    Lookup(t.lens, t.lenbits, v).1
  }

  /** The loop: decodes symbols while there are six bytes of input and room for 258 bytes. */
  method FastLoop(rd: BitReader, z: Inflater, t: Tables, ghost w: nat, ghost llens: seq<nat>, ghost dlens: seq<nat>)
    returns (mode: Mode, ghost n: nat)
    requires rd.Valid() && z.Valid() && TablesFor(t, w, llens, dlens)
    requires rd.pos + 6 <= rd.limit && z.put + 258 <= z.out.Length
    modifies rd`pos, rd`hold, rd`bits, z`put, z.out
    ensures rd.Valid() && z.Valid() && z.before == old(z.before) && old(rd.pos) <= rd.pos
    ensures n >= 1 && Lost(z) >= 0 && Here(rd, z, mode) == Steps(t, Lost(z), old(Here(rd, z, LEN)), n)
    ensures Steps(t, Lost(z), old(Here(rd, z, LEN)), n - 1).mode == LEN
    ensures rd.Avail() + StepsBits(t, Lost(z), old(Here(rd, z, LEN)), n) == old(rd.Avail())
    ensures rd.Avail() + LengthCodeBits(t, old(rd.Value())) <= old(rd.Avail())
    ensures Moved(old(rd.Value()), old(rd.Avail()), rd.Value(), rd.Avail())
    ensures mode == LEN ==> old(z.put) < z.put && (rd.limit - rd.pos < 6 || z.out.Length - z.put < 258)
  {
    hide Shl, Shr, Low, Stream, Pow2, TablesFor, Moved, Next, WindowHolds, SymbolBits, LengthCodeBits, Steps, StepsBits;
    n := 0;
    ghost var p := Here(rd, z, LEN);
    WindowReach(z.window[..], z.wsize, z.whave, z.write, z.before);
    MovedNone(rd.Value(), rd.Avail());
    NoSteps(t, Lost(z), p);
    while true
      invariant rd.Valid() && z.Valid() && z.before == old(z.before)
      invariant rd.pos + 6 <= rd.limit && z.put + 258 <= z.out.Length && old(rd.pos) <= rd.pos && old(z.put) <= z.put
      invariant Lost(z) >= 0 && Here(rd, z, LEN) == Steps(t, Lost(z), p, n)
      invariant Moved(old(rd.Value()), old(rd.Avail()), rd.Value(), rd.Avail())
      invariant rd.Avail() + StepsBits(t, Lost(z), p, n) == old(rd.Avail())
      invariant n == 0 ==> rd.Value() == old(rd.Value()) && rd.Avail() == old(rd.Avail())
      invariant n > 0 ==> rd.Avail() + LengthCodeBits(t, old(rd.Value())) <= old(rd.Avail())
      decreases z.out.Length - z.put
    {
      ghost var v, a := rd.Value(), rd.Avail();
      mode := FastStep(rd, z, t, w, llens, dlens);
      MovedMore(old(rd.Value()), old(rd.Avail()), v, a, rd.Value(), rd.Avail());
      MovedLess(v, a, rd.Value(), rd.Avail());
      CodeAndMore(t, v);
      OneMoreStep(t, Lost(z), p, n);
      n := n + 1;
      if mode != LEN || rd.pos + 5 >= rd.limit || z.put + 257 >= z.out.Length {
        break;
      }
    }
  }

  /** The whole of inflate_fast: the loop, and then bytes that are not used are given back. */
  method InflateFast(rd: BitReader, z: Inflater, t: Tables, ghost w: nat, ghost llens: seq<nat>, ghost dlens: seq<nat>)
    returns (mode: Mode, ghost n: nat)
    requires rd.Valid() && z.Valid() && TablesFor(t, w, llens, dlens)
    requires rd.pos + 6 <= rd.limit && z.put + 258 <= z.out.Length && Lean(rd.bits, LengthCodeBits(t, rd.Value()))
    modifies rd`pos, rd`hold, rd`bits, z`put, z.out
    ensures rd.Valid() && z.Valid() && z.before == old(z.before)
    ensures rd.bits < 8 && old(rd.pos) <= rd.pos
    // n symbols were decoded, each as its own bits say
    ensures n >= 1 && Lost(z) >= 0 && Here(rd, z, mode) == Steps(t, Lost(z), old(Here(rd, z, LEN)), n)
    ensures Steps(t, Lost(z), old(Here(rd, z, LEN)), n - 1).mode == LEN
    ensures rd.Avail() + StepsBits(t, Lost(z), old(Here(rd, z, LEN)), n) == old(rd.Avail())
    ensures rd.Avail() < old(rd.Avail())
    ensures mode == LEN ==> old(z.put) < z.put
    ensures mode == LEN ==> rd.limit - rd.pos < 10 || z.out.Length - z.put < 258
  {
    hide Shl, Shr, Low, Stream, Pow2, TablesFor, Moved, WindowHolds, LengthCodeBits, Steps, StepsBits;
    CodeTakes(t, w, llens, dlens, rd.Value());
    mode, n := FastLoop(rd, z, t, w, llens, dlens);
    GiveBack(rd, old(rd.pos), old(rd.hold), old(rd.bits));
  }

  /** Every symbol takes some bits. */
  lemma CodeTakes(t: Tables, w: nat, llens: seq<nat>, dlens: seq<nat>, v: nat)
    requires TablesFor(t, w, llens, dlens)
    ensures LengthCodeBits(t, v) >= 1
  {
    hide TableFor, Lookup;
    LookupShape(w, LENS, llens, t.lens, t.lenbits, v);
  }

  lemma NoSteps(t: Tables, lost: nat, p: Progress)
    ensures Steps(t, lost, p, 0) == p && StepsBits(t, lost, p, 0) == 0
  {
  }

  lemma OneMoreStep(t: Tables, lost: nat, p: Progress, n: nat)
    ensures Steps(t, lost, p, n + 1) == Next(t, lost, Steps(t, lost, p, n))
    ensures StepsBits(t, lost, p, n + 1) == StepsBits(t, lost, p, n) + SymbolBits(t, Steps(t, lost, p, n).value)
  {
  }

  lemma CodeAndMore(t: Tables, v: nat)
    ensures LengthCodeBits(t, v) <= SymbolBits(t, v)
  {
  }

  lemma MovedLess(v: nat, a: nat, v': nat, a': nat)
    requires Moved(v, a, v', a')
    ensures a' <= a
  {
  }

  /** Gives back the bytes that were taken and not used. */
  method GiveBack(rd: BitReader, ghost pos0: nat, ghost hold0: nat, ghost bits0: nat)
    requires rd.Valid() && pos0 <= rd.pos && hold0 < Pow2(bits0)
    requires bits0 < 8 || rd.Avail() + bits0 <= bits0 + 8 * (rd.limit - pos0)
    requires Moved(hold0 + Shl(Stream(rd.input[pos0..]), bits0), bits0 + 8 * (rd.limit - pos0), rd.Value(), rd.Avail())
    modifies rd`pos, rd`hold, rd`bits
    ensures rd.Valid() && rd.Value() == old(rd.Value()) && rd.Avail() == old(rd.Avail())
    ensures rd.bits < 8 && pos0 <= rd.pos && old(rd.pos) <= rd.pos + 4
  {
    hide Shl, Low, Stream, Pow2, Moved;
    GivenBack(rd.input, rd.limit, rd.pos, rd.hold, rd.bits, pos0, hold0, bits0);
    var len := rd.bits / 8;
    rd.pos := rd.pos - len;
    rd.bits := rd.bits - 8 * len;
    rd.hold := Low(rd.hold, rd.bits);
  }
}
