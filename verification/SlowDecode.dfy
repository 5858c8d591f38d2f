/** The LEN, LENEXT, DIST, DISTEXT, MATCH and LIT states of inflate, which take input only
    as it is needed: they decode the same symbols as the fast loop. */
module SlowDecode {
  import opened Bits
  import opened BitStream
  import opened BitInput
  import opened Huffman
  import opened InflateTable
  import opened History
  import opened InflateWindow
  import opened BlockDecoder
  import opened FastDecode
  import opened InflateCalls

  /** The state of a lookup in the table: found is right, or there is not enough input. */
  ghost predicate Found(table: map<nat, Entry>, root: nat, v: nat, op: nat, val: nat, n: nat) {
    var (f, m) := Lookup(table, root, v);
    f.op == op && f.val == val && m == n
  }

  lemma AtHand(rd: BitReader, w: nat, kind: CodeType, lens: seq<nat>, table: map<nat, Entry>, root: nat)
    requires rd.Valid() && TableFor(w, kind, lens, table, root)
    ensures var (e, n) := Lookup(table, root, rd.hold);
            && (n <= rd.bits ==> Found(table, root, rd.Value(), e.op, e.val, n))
            && (Lookup(table, root, rd.Value()).1 <= rd.bits ==> n <= rd.bits)
            && n <= 15
  {
    hide Lookup, Low, Shl, Pow2, TableFor;
    if Lookup(table, root, rd.hold).1 <= rd.bits {
      EnoughBits(w, kind, lens, table, root, rd.hold, rd.bits, Stream(rd.input[rd.pos..]));
    }
    if Lookup(table, root, rd.Value()).1 <= rd.bits {
      EnoughFound(w, kind, lens, table, root, rd.hold, rd.bits, Stream(rd.input[rd.pos..]));
    }
    LookupShape(w, kind, lens, table, root, rd.hold);
  }

  lemma FirstLevel(table: map<nat, Entry>, root: nat, h: nat)
    ensures var e := Get(table, Low(h, root));
            Lookup(table, root, h) ==
            if Pointer(e) then
              var f := Get(table, e.val + Shr(Low(h, e.bits + e.op), e.bits)); (f, e.bits + f.bits)
            else (e, e.bits)
  {
  }

  lemma PointerBits(w: nat, kind: CodeType, lens: seq<nat>, table: map<nat, Entry>, root: nat, h: nat)
    requires TableFor(w, kind, lens, table, root)
    ensures Pointer(Get(table, Low(h, root))) ==> Get(table, Low(h, root)).bits == root
  {
  }

  /** The second level, for a first-level entry that is settled. */
  method SecondSymbol(rd: BitReader, table: map<nat, Entry>, root: nat, last: Entry, ghost w: nat, ghost kind: CodeType, ghost lens: seq<nat>)
    returns (ok: bool, e: Entry)
    requires rd.Valid() && rd.bits <= 24 && TableFor(w, kind, lens, table, root)
    requires Pointer(last) && last.bits == root <= rd.bits && last == Get(table, Low(rd.Value(), root))
    requires rd.bits < Lookup(table, root, rd.Value()).1 + 8
    modifies rd`pos, rd`hold, rd`bits
    ensures rd.Valid() && rd.bits <= 24 && old(rd.bits) <= rd.bits && rd.Value() == old(rd.Value()) && rd.Avail() == old(rd.Avail())
    ensures rd.bits < Lookup(table, root, rd.Value()).1 + 8
    ensures ok ==> last.bits + e.bits <= rd.bits && Found(table, root, old(rd.Value()), e.op, e.val, last.bits + e.bits)
    ensures !ok ==> rd.pos == rd.limit && rd.bits < Lookup(table, root, rd.Value()).1
  {
    hide Lookup, Low, Shl, Shr, Stream, Pow2, TableFor;
    while true
      invariant rd.Valid() && root <= rd.bits <= 24 && old(rd.bits) <= rd.bits
      invariant rd.Value() == old(rd.Value()) && rd.Avail() == old(rd.Avail())
      invariant rd.bits < Lookup(table, root, rd.Value()).1 + 8
      decreases rd.limit - rd.pos
    {
      AtHand(rd, w, kind, lens, table, root);
      FirstLevel(table, root, rd.hold);
      PartOfLow(rd.hold, Stream(rd.input[rd.pos..]), rd.bits, root);
      e := Get(table, last.val + Shr(Low(rd.hold, last.bits + last.op), last.bits));
      if last.bits + e.bits <= rd.bits {
        return true, e;
      }
      ok := rd.PullByte();
      if !ok {
        return;
      }
    }
  }

  /** The first level: an entry that the bits at hand settle. */
  method FirstSymbol(rd: BitReader, table: map<nat, Entry>, root: nat, ghost w: nat, ghost kind: CodeType, ghost lens: seq<nat>)
    returns (ok: bool, e: Entry)
    requires rd.Valid() && rd.bits <= 24 && TableFor(w, kind, lens, table, root)
    requires Lean(rd.bits, Lookup(table, root, rd.Value()).1)
    modifies rd`pos, rd`hold, rd`bits
    ensures rd.Valid() && rd.bits <= 24 && rd.Value() == old(rd.Value()) && rd.Avail() == old(rd.Avail())
    ensures rd.bits < Lookup(table, root, rd.Value()).1 + 8
    ensures ok && !Pointer(e) ==> e.bits <= rd.bits && Found(table, root, rd.Value(), e.op, e.val, e.bits)
    ensures ok && Pointer(e) ==> e.bits == root <= rd.bits && e == Get(table, Low(rd.Value(), root))
    ensures !ok ==> rd.pos == rd.limit && rd.bits < Lookup(table, root, rd.Value()).1
  {
    hide Lookup, Low, Shl, Shr, Stream, Pow2, TableFor;
    ghost var v := rd.Value();
    LookupShape(w, kind, lens, table, root, v);
    while true
      invariant rd.Valid() && rd.bits <= 24 && rd.Value() == v && rd.Avail() == old(rd.Avail())
      invariant rd.bits < Lookup(table, root, v).1 + 8
      decreases rd.limit - rd.pos
    {
      AtHand(rd, w, kind, lens, table, root);
      FirstLevel(table, root, rd.hold);
      PointerBits(w, kind, lens, table, root, rd.hold);
      e := Get(table, Low(rd.hold, root));
      if e.bits <= rd.bits {
        SettledPointer(rd, table, root, e);
        return true, e;
      }
      FirstLevel(table, root, v);
      ok := rd.PullByte();
      if !ok {
        return;
      }
    }
  }

  lemma SettledPointer(rd: BitReader, table: map<nat, Entry>, root: nat, e: Entry)
    requires rd.Valid() && e == Get(table, Low(rd.hold, root)) && (Pointer(e) ==> e.bits == root <= rd.bits)
    ensures Pointer(e) ==> e == Get(table, Low(rd.Value(), root))
  {
    hide Low, Shl, Stream, Pow2;
    if Pointer(e) {
      PartOfLow(rd.hold, Stream(rd.input[rd.pos..]), rd.bits, root);
    }
  }

  /** Finds the next symbol of a code and uses up its bits, if there is enough input. A byte is
      taken only when it is needed, so less than a byte is left. */
  method SlowSymbol(rd: BitReader, table: map<nat, Entry>, root: nat, ghost w: nat, ghost kind: CodeType, ghost lens: seq<nat>)
    returns (ok: bool, e: Entry)
    requires rd.Valid() && rd.bits <= 24 && TableFor(w, kind, lens, table, root)
    requires Lean(rd.bits, Lookup(table, root, rd.Value()).1)
    modifies rd`pos, rd`hold, rd`bits
    ensures rd.Valid() && rd.bits <= 24
    ensures ok ==>
              var (f, n) := Lookup(table, root, old(rd.Value()));
              && e.op == f.op && e.val == f.val && rd.Value() == Shr(old(rd.Value()), n)
              && rd.Avail() + n == old(rd.Avail()) && rd.bits < 8
    ensures !ok ==> rd.Value() == old(rd.Value()) && rd.Avail() == old(rd.Avail())
                    && rd.pos == rd.limit && rd.bits < Lookup(table, root, rd.Value()).1
  {
    hide Lookup, Low, Shl, Shr, Stream, Pow2, TableFor;
    ok, e := FirstSymbol(rd, table, root, w, kind, lens);
    if !ok {
      return;
    }
    if Pointer(e) {
      var last := e;
      ok, e := SecondSymbol(rd, table, root, last, w, kind, lens);
      if !ok {
        return;
      }
      ShrShr(rd.Value(), last.bits, e.bits);
      rd.DropBits(last.bits);
    }
    rd.DropBits(e.bits);
    ok := true;
  }

  /** The same over calls. */
  method SymbolOverCalls(rd: BitReader, z: Inflater, calls: seq<Call>, j0: nat, table: map<nat, Entry>, root: nat,
                         ghost w: nat, ghost kind: CodeType, ghost lens: seq<nat>)
    returns (ok: bool, e: Entry, j: nat)
    requires rd.Valid() && z.Valid() && rd.bits < 8 && TableFor(w, kind, lens, table, root) && Given(rd, z, calls, j0)
    modifies rd, z, z.window
    ensures rd.Valid() && rd.bits <= 24 && z.Valid() && (z.out == old(z.out) || fresh(z.out)) && j0 <= j && Given(rd, z, calls, j)
    ensures z.Output() == old(z.Output())
    ensures ok ==>
              var (f, n) := Lookup(table, root, old(rd.Value()));
              && e.op == f.op && e.val == f.val && rd.Value() == Shr(old(rd.Value()), n)
              && rd.Left() + n == old(rd.Left()) && rd.bits < 8
    ensures !ok ==> j == |calls| && rd.Left() == old(rd.Left())
                    && rd.pos == rd.limit && rd.bits < Lookup(table, root, old(rd.Value())).1
  {
    hide Lookup, Low, Shl, Shr, Stream, Pow2, TableFor, WindowHolds;
    j := j0;
    while true
      invariant rd.Valid() && rd.bits <= 24 && z.Valid() && (z.out == old(z.out) || fresh(z.out)) && j0 <= j && Given(rd, z, calls, j)
      invariant rd.Value() == old(rd.Value()) && rd.Left() == old(rd.Left()) && z.Output() == old(z.Output())
      invariant Lean(rd.bits, Lookup(table, root, rd.Value()).1)
      decreases |calls| - j
    {
      ok, e := SlowSymbol(rd, table, root, w, kind, lens);
      if ok {
        return;
      }
      ok, j := NextCall(rd, z, calls, j);
      if !ok {
        return;
      }
    }
  }

  lemma LengthOps(op: nat, val: nat)
    requires LenEntry(op, val)
    ensures op != 0 && !Bit(op, 32) && !Bit(op, 64) <==> Bit(op, 16)
    ensures Bit(op, 16) ==> op != 0 && !Bit(op, 32) && !Bit(op, 64) && op % 16 <= 5
    ensures op == 0 ==> val < 256 && !Bit(op, 16)
  {
  }

  lemma DistOps(op: nat, val: nat)
    requires DistEntry(op, val)
    ensures !Bit(op, 64) <==> Bit(op, 16)
    ensures Bit(op, 16) ==> op % 16 <= 13 && 1 <= val
  {
  }

  /** The DIST and DISTEXT states. */
  method SlowDistance(rd: BitReader, z: Inflater, calls: seq<Call>, j0: nat, t: Tables, len: nat,
                      ghost w: nat, ghost llens: seq<nat>, ghost dlens: seq<nat>)
    returns (ok: bool, s: Symbol, j: nat)
    requires rd.Valid() && z.Valid() && rd.bits < 8 && TablesFor(t, w, llens, dlens) && Given(rd, z, calls, j0)
    modifies rd, z, z.window
    ensures rd.Valid() && rd.bits <= 24 && z.Valid() && (z.out == old(z.out) || fresh(z.out)) && j0 <= j && Given(rd, z, calls, j)
    ensures z.Output() == old(z.Output())
    ensures ok ==> (s, rd.Value()) == DecodeDistance(t, len, old(rd.Value())) && (s.Pair? ==> s.len == len && 1 <= s.dist)
    ensures ok ==> rd.Left() + DistanceBits(t, old(rd.Value())) == old(rd.Left()) && rd.bits < 8 && (s.Pair? || s.Invalid?)
    ensures !ok ==> j == |calls| && (rd.limit == |rd.input| ==> old(rd.Left()) < DistanceBits(t, old(rd.Value())))
  {
    hide Shl, Shr, Low, Stream, Pow2, TableFor, Lookup, DistEntry, WindowHolds;
    LookupShape(w, DISTS, dlens, t.dists, t.distbits, rd.Value());
    var f;
    s := Invalid;
    ok, f, j := SymbolOverCalls(rd, z, calls, j0, t.dists, t.distbits, w, DISTS, dlens);
    if !ok {
      return;
    }
    DistOps(f.op, f.val);
    if Bit(f.op, 64) {
      return;
    }
    var y;
    ok, y, j := FieldOverCalls(rd, z, calls, j, f.op % 16);
    s := Pair(len, f.val + y);
  }

  /** What follows the code of a literal or length: the LENEXT and later states. */
  method SlowRest(rd: BitReader, z: Inflater, calls: seq<Call>, j0: nat, t: Tables, op: nat, val: nat,
                  ghost w: nat, ghost llens: seq<nat>, ghost dlens: seq<nat>)
    returns (ok: bool, s: Symbol, j: nat)
    requires rd.Valid() && z.Valid() && rd.bits < 8 && TablesFor(t, w, llens, dlens) && Given(rd, z, calls, j0) && LenEntry(op, val)
    modifies rd, z, z.window
    ensures rd.Valid() && rd.bits <= 24 && z.Valid() && (z.out == old(z.out) || fresh(z.out)) && j0 <= j && Given(rd, z, calls, j)
    ensures z.Output() == old(z.Output())
    ensures ok ==> (s, rd.Value()) == AfterCode(t, op, val, old(rd.Value())) && (s.Pair? ==> 3 <= s.len <= 258 && 1 <= s.dist)
    ensures ok ==> rd.Left() + AfterBits(t, op, old(rd.Value())) == old(rd.Left()) && rd.bits < 8
    ensures !ok ==> j == |calls| && (rd.limit == |rd.input| ==> old(rd.Left()) < AfterBits(t, op, old(rd.Value())))
  {
    hide Shl, Shr, Low, Stream, Pow2, TableFor, LenEntry, DecodeDistance, DistanceBits, WindowHolds;
    LengthOps(op, val);
    j := j0;
    if op == 0 {
      return true, Literal(val), j;
    }
    if Bit(op, 32) {
      return true, EndOfBlock, j;
    }
    if Bit(op, 64) {
      return true, Invalid, j;
    }
    LengthOp(op, val);
    LengthBound(op, val, rd.Value());
    var x;
    s := Invalid;
    ok, x, j := FieldOverCalls(rd, z, calls, j, op % 16);
    if !ok {
      return;
    }
    ok, s, j := SlowDistance(rd, z, calls, j, t, val + x, w, llens, dlens);
  }

  /** How a turn of the slow states ends: a symbol was decoded and put out, the next call must
      look again whether to decode fast, there are no more calls, or a match was stuck. */
  datatype StepEnd = Stepped | Again | NoCalls | StuckMatch

  lemma LostReach(z: Inflater)
    requires z.Valid()
    ensures Reach(Lost(z), z.Output(), z.window.Length)
    ensures Lost(z) + z.whave + z.put == |z.Output()|
  {
    WindowReach(z.window[..], z.wsize, z.whave, z.write, z.before);
  }

  /** The LIT state. */
  method LitOverCalls(rd: BitReader, z: Inflater, calls: seq<Call>, j0: nat, b: Byte) returns (ok: bool, j: nat)
    requires rd.Valid() && z.Valid() && Given(rd, z, calls, j0)
    modifies rd`limit, z, z.window, z.out
    ensures rd.Valid() && z.Valid() && (z.out == old(z.out) || fresh(z.out)) && j0 <= j && Given(rd, z, calls, j)
    ensures rd.Value() == old(rd.Value()) && rd.Left() == old(rd.Left())
    ensures z.Output() == if ok then old(z.Output()) + [b] else old(z.Output())
    ensures !ok ==> j == |calls| && z.put == z.out.Length
  {
    hide WindowHolds, Stream, Shl, Pow2;
    j := j0;
    while z.put == z.out.Length
      invariant rd.Valid() && z.Valid() && (z.out == old(z.out) || fresh(z.out)) && j0 <= j && Given(rd, z, calls, j)
      invariant rd.Value() == old(rd.Value()) && rd.Left() == old(rd.Left()) && z.Output() == old(z.Output())
      decreases |calls| - j
    {
      ok, j := NextCall(rd, z, calls, j);
      if !ok {
        return;
      }
    }
    z.Literal(b);
    ok := true;
  }

  /** Puts a symbol out: the LIT and MATCH states and the check of the distance. */
  method PutSymbol(rd: BitReader, z: Inflater, calls: seq<Call>, j0: nat, s: Symbol) returns (r: StepEnd, mode: Mode, j: nat, ghost lost: int)
    requires rd.Valid() && z.Valid() && Given(rd, z, calls, j0) && (s.Pair? ==> 1 <= s.dist)
    modifies rd`limit, z, z.window, z.out
    ensures rd.Valid() && z.Valid() && (z.out == old(z.out) || fresh(z.out)) && j0 <= j && Given(rd, z, calls, j) && r != Again
    ensures rd.Value() == old(rd.Value()) && rd.Left() == old(rd.Left())
    ensures lost >= 0 && Reach(lost, old(z.Output()), z.window.Length)
    ensures r == Stepped ==> Here(rd, z, mode) == PutOut(s, rd.Value(), lost, old(z.Output()))
    ensures r == NoCalls ==> j == |calls| && z.put == z.out.Length
    ensures r == StuckMatch ==> s.Pair? && s.dist > z.window.Length
    ensures z.Output() <= PutOut(s, rd.Value(), lost, old(z.Output())).output
  {
    hide Shl, Stream, Pow2, WindowHolds, Copied, CopyBytes, Reach;
    ghost var h := z.Output();
    mode, j, lost := LEN, j0, 0;
    ReachNone(h, z.window.Length);
    match s {
      case Literal(b) =>
        var ok;
        ok, j := LitOverCalls(rd, z, calls, j, b);
        r := if ok then Stepped else NoCalls;
      case Pair(len, dist) =>
        LostReach(z);
        lost := Lost(z);
        var near := z.DistanceOK(dist);
        if !near {
          mode, r := BAD, Stepped;
          return;
        }
        var stuck, rest, k;
        stuck, rest, k := z.MatchOverCalls(len, dist, Sizes(calls), j);
        GiveInput(rd, calls, j, k);
        j := k;
        MatchedSoFar(h, dist, len, rest, z.Output());
        r := if stuck then StuckMatch else if rest > 0 then NoCalls else Stepped;
      case EndOfBlock =>
        mode, r := TYPE, Stepped;
      case Invalid =>
        mode, r := BAD, Stepped;
    }
  }

  /** One symbol, over calls with any amounts of input and output: what the fast loop decodes
      too, unless a match with a distance larger than the window goes on in a later call. */
  method SlowStep(rd: BitReader, z: Inflater, calls: seq<Call>, j0: nat, t: Tables, ghost w: nat, ghost llens: seq<nat>, ghost dlens: seq<nat>)
    returns (r: StepEnd, mode: Mode, j: nat, ghost lost: int)
    requires rd.Valid() && z.Valid() && rd.bits <= 24 && TablesFor(t, w, llens, dlens) && Given(rd, z, calls, j0)
    requires Lean(rd.bits, LengthCodeBits(t, rd.Value()))
    modifies rd, z, z.window, z.out
    ensures rd.Valid() && z.Valid() && rd.bits <= 24 && (z.out == old(z.out) || fresh(z.out)) && j0 <= j && Given(rd, z, calls, j)
    ensures r == Again ==> mode == LEN && j == j0 + 1 && Here(rd, z, LEN) == old(Here(rd, z, LEN)) && rd.Left() == old(rd.Left())
                           && Lean(rd.bits, LengthCodeBits(t, rd.Value()))
    ensures r != Again ==> lost >= 0 && Reach(lost, old(z.Output()), z.window.Length)
    ensures r == Stepped ==> Here(rd, z, mode) == Next(t, lost, old(Here(rd, z, LEN))) && rd.bits < 8
                             && rd.Left() + SymbolBits(t, old(rd.Value())) == old(rd.Left())
    ensures r == NoCalls ==> j == |calls|
                             && (z.put == z.out.Length || (rd.limit == |rd.input| ==> old(rd.Left()) < SymbolBits(t, old(rd.Value()))))
    ensures r == StuckMatch ==> var s := Decode(t, old(rd.Value())).0; s.Pair? && s.dist > z.window.Length
    ensures r == NoCalls || r == StuckMatch ==> z.Output() <= Next(t, lost, old(Here(rd, z, LEN))).output
  {
    hide Shl, Shr, Low, Stream, Pow2, WindowHolds, TableFor, AfterCode, AfterBits, Lookup, Reach, LenEntry, PutOut;
    mode, j, lost := LEN, j0, 0;
    LookupShape(w, LENS, llens, t.lens, t.lenbits, rd.Value());
    ReachNone(z.Output(), z.window.Length);
    NextExtends(t, 0, Here(rd, z, LEN));
    var ok, e := SlowSymbol(rd, t.lens, t.lenbits, w, LENS, llens);
    if !ok {
      ok, j := NextCall(rd, z, calls, j);
      r := if ok then Again else NoCalls;
      return;
    }
    var s;
    ok, s, j := SlowRest(rd, z, calls, j, t, e.op, e.val, w, llens, dlens);
    if !ok {
      r := NoCalls;
      return;
    }
    r, mode, j, lost := PutSymbol(rd, z, calls, j, s);
  }

  lemma ReachNone(h: seq<Byte>, wmax: nat)
    ensures Reach(0, h, wmax)
  {
  }

  lemma NextExtends(t: Tables, lost: nat, p: Progress)
    ensures p.output <= Next(t, lost, p).output
  {
    hide Decode;
    var s := Decode(t, p.value).0;
    if p.mode == LEN && s.Pair? && 1 <= s.dist && s.dist + lost <= |p.output| {
      CopyBytesPrefix(p.output, s.dist, s.len);
    }
  }

  /** A match of which rest bytes are missing is a beginning of the whole match. */
  lemma MatchedSoFar(h: seq<Byte>, dist: nat, len: nat, rest: nat, g: seq<Byte>)
    requires rest <= len && Copied(h, dist, len - rest, g)
    ensures 1 <= dist <= |h| && g <= CopyBytes(h, dist, len) && (rest == 0 ==> g == CopyBytes(h, dist, len))
  {
    hide Copied, CopyBytes;
    CopiedSize(h, dist, len - rest, g);
    CopyRest(h, dist, len, len - rest, g);
    CopyBytesPrefix(g, dist, rest);
    if rest == 0 {
      CopiedIsCopyBytes(h, dist, len, g);
    }
  }
}
