/** The two-level decoding tables of inflate. */
module InflateTable {
  import opened Bits
  import opened Huffman

  datatype CodeType = CODES | LENS | DISTS

  /** A table entry: operation, bits of the code it uses up, value. */
  datatype Entry = Entry(op: nat, bits: nat, val: nat)

  const LBASE: seq<nat> := [3, 4, 5, 6, 7, 8, 9, 10, 11, 13, 15, 17, 19, 23, 27, 31,
                            35, 43, 51, 59, 67, 83, 99, 115, 131, 163, 195, 227, 258, 0, 0]
  const LEXT: seq<nat> := [16, 16, 16, 16, 16, 16, 16, 16, 17, 17, 17, 17, 18, 18, 18, 18,
                           19, 19, 19, 19, 20, 20, 20, 20, 21, 21, 21, 21, 16, 201, 196]
  const DBASE: seq<nat> := [1, 2, 3, 4, 5, 7, 9, 13, 17, 25, 33, 49, 65, 97, 129, 193,
                            257, 385, 513, 769, 1025, 1537, 2049, 3073, 4097, 6145,
                            8193, 12289, 16385, 24577, 0, 0]
  const DEXT: seq<nat> := [16, 16, 16, 16, 17, 17, 18, 18, 19, 19, 20, 20, 21, 21, 22, 22,
                           23, 23, 24, 24, 25, 25, 26, 26, 27, 27, 28, 28, 29, 29, 64, 64]

  const ENOUGH: nat := 2048
  const MAXD: nat := 592

  /** How many symbols a code of each type can have. */
  function MaxSymbols(kind: CodeType): nat {
    match kind
    case CODES => 19
    case LENS => 288
    case DISTS => 32
  }

  /** The entry of a symbol whose remaining code has the given bits. */
  function Leaf(kind: CodeType, sym: nat, bits: nat): (e: Entry)
    requires sym < MaxSymbols(kind)
    ensures !Pointer(e) && e.bits == bits
  {
    match kind
    case CODES => Entry(0, bits, sym)
    case LENS =>
      if sym < 256 then Entry(0, bits, sym)
      else if sym > 256 then Entry(LEXT[sym - 257], bits, LBASE[sym - 257])
      else Entry(96, bits, 0)
    case DISTS => Entry(DEXT[sym], bits, DBASE[sym])
  }

  /** Whether an entry of the root table leads to a sub-table. */
  predicate Pointer(e: Entry) {
    0 < e.op < 16
  }

  function Get(table: map<nat, Entry>, a: nat): Entry {
    if a in table then table[a] else Entry(64, 0, 0)
  }

  /** Decoding from the bits h: the entry found and the number of bits used up. */
  function Lookup(table: map<nat, Entry>, root: nat, h: nat): (Entry, nat) {
    var e := Get(table, Low(h, root));
    if Pointer(e) then
      var f := Get(table, e.val + Shr(Low(h, e.bits + e.op), e.bits));
      (f, e.bits + f.bits)
    else (e, e.bits)
  }

  /** From the bits h the symbol is decoded, using exactly its length. */
  ghost predicate Decodes(table: map<nat, Entry>, root: nat, h: nat, kind: CodeType, sym: nat, len: nat)
    requires sym < MaxSymbols(kind)
  {
    var (e, n) := Lookup(table, root, h);
    e == Leaf(kind, sym, e.bits) && n == len
  }

  // ---------- replicating an entry ----------

  /** The only number with low bits c between c + Shl(q, t) and c + Shl(q + 1, t). */
  lemma OnlyOne(b: nat, c: nat, q: nat, t: nat)
    requires Low(b, t) == c && c + Shl(q, t) <= b < c + Shl(q + 1, t)
    ensures b == c + Shl(q, t)
  {
    LowShr(b, t);
    ShlMonotone(Shr(b, t), q, t);
    ShlMonotone(Shr(b, t), q + 1, t);
  }

  /** Whether the address a is one of those that get the entry of a code with low bits c. */
  predicate Replica(a: nat, next: nat, curr: nat, t: nat, c: nat) {
    next <= a < next + Pow2(curr) && Low(a - next, t) == c
  }

  /** All addresses of the table are below n. */
  ghost predicate Below(table: map<nat, Entry>, n: nat) {
    forall a {:trigger table[a]} :: a in table ==> a < n
  }


  /** Enters e at every index of the current table whose low t bits are c. */
  method Fill(table: map<nat, Entry>, next: nat, curr: nat, t: nat, c: nat, e: Entry) returns (table': map<nat, Entry>)
    requires t <= curr && c < Pow2(t)
    ensures forall a: nat :: Get(table', a) == if Replica(a, next, curr, t, c) then e else Get(table, a)
    ensures forall n: nat {:trigger Below(table', n)} :: Below(table, n) && next + Pow2(curr) <= n ==> Below(table', n)
  {
    hide Pow2, Shl, Low, Below;
    var incr := Pow2(t);
    var fill := Pow2(curr);
    ghost var q := Pow2(curr - t);
    Pow2Shl(curr - t, t);
    table' := table;
    while true
      invariant q > 0 && fill == Shl(q, t) && fill <= Pow2(curr)
      invariant forall n: nat {:trigger Below(table', n)} :: Below(table, n) && next + Pow2(curr) <= n ==> Below(table', n)
      invariant forall a: nat :: Get(table', a) ==
                  if Replica(a, next, curr, t, c) && a - next >= c + fill then e else Get(table, a)
      decreases q
    {
      ShlAdd(q - 1, 1, t);
      Pow2Shl(0, t);
      fill := fill - incr;
      ghost var before := table';
      forall n: nat | Below(table, n) && next + Pow2(curr) <= n ensures Below(table'[next + c + fill := e], n) {
        BelowMore(table', n, next + c + fill, e, n);
      }
      table' := table'[next + c + fill := e];
      q := q - 1;
      LowAddShl(c, q, t);
      forall a: nat ensures Get(table', a) ==
          if Replica(a, next, curr, t, c) && a - next >= c + fill then e else Get(table, a)
      {
        if a != next + c + fill && Replica(a, next, curr, t, c) && c + fill <= a - next < c + fill + incr {
          OnlyOne(a - next, c, q, t);
        }
      }
      if fill == 0 {
        break;
      }
      assert q > 0 by {
        if q == 0 {
          Shl0(t);
        }
      }
    }
    AtLeastLow(table, table', next, curr, t, c, e);
  }

  lemma AtLeastLow(table: map<nat, Entry>, table': map<nat, Entry>, next: nat, curr: nat, t: nat, c: nat, e: Entry)
    requires forall a: nat :: Get(table', a) ==
               if Replica(a, next, curr, t, c) && a - next >= c then e else Get(table, a)
    ensures forall a: nat :: Get(table', a) == if Replica(a, next, curr, t, c) then e else Get(table, a)
  {
    forall a: nat | Replica(a, next, curr, t, c) ensures a - next >= c {
      LowShr(a - next, t);
    }
  }

  // ---------- the codes entered so far ----------

  function LenAt(w: nat, lens: seq<nat>, k: nat): (l: nat)
    requires k < |Work(w, lens)|
    ensures 1 <= l <= w
  {
    lens[Work(w, lens)[k]]
  }

  ghost predicate Input(w: nat, lens: seq<nat>, kind: CodeType) {
    LensOK(w, lens) && NotOversubscribed(w, lens) && |lens| <= MaxSymbols(kind)
  }

  /** Whatever bits begin with the k-th code decode to its symbol. */
  ghost predicate Good(w: nat, lens: seq<nat>, kind: CodeType, table: map<nat, Entry>, root: nat, k: nat)
    requires Input(w, lens, kind) && k < |Work(w, lens)|
  {
    forall h: nat :: Low(h, LenAt(w, lens, k)) == Huff(w, lens, k) ==>
      Decodes(table, root, h, kind, Work(w, lens)[k], LenAt(w, lens, k))
  }

  lemma HuffBound(w: nat, lens: seq<nat>, k: nat)
    requires k < |Work(w, lens)|
    ensures Huff(w, lens, k) < Pow2(LenAt(w, lens, k))
    ensures Low(Huff(w, lens, k), LenAt(w, lens, k)) == Huff(w, lens, k)
  {
    hide Rev, Low, Pow2, Start, Canon;
    HuffOwnLength(w, lens, k);
    LowSmall(Huff(w, lens, k), LenAt(w, lens, k));
  }

  /** Bits that begin with an earlier code do not begin with a later one. */
  lemma NotBoth(w: nat, lens: seq<nat>, j: nat, k: nat, h: nat)
    requires NotOversubscribed(w, lens) && j < k < |Work(w, lens)|
    requires Low(h, LenAt(w, lens, j)) == Huff(w, lens, j)
    ensures Low(h, LenAt(w, lens, k)) != Huff(w, lens, k)
  {
    hide Rev, Low, Pow2, Start, Canon, Huff;
    PrefixFree(w, lens, j, k);
    Ordered(w, lens, j, k);
    LowLow(h, LenAt(w, lens, k), LenAt(w, lens, j));
  }

  /** The current table is the root table: no entry leads to a sub-table. */
  ghost predicate RootShape(table: map<nat, Entry>) {
    forall a: nat :: !Pointer(Get(table, a))
  }

  /** An entry that leads to a sub-table uses up all bits of the root table. */
  ghost predicate PointersAtRoot(table: map<nat, Entry>, root: nat) {
    forall h: nat {:trigger Low(h, root)} :: Pointer(Get(table, Low(h, root))) ==> Get(table, Low(h, root)).bits == root
  }

  /** Entries lie below used, and so do all addresses that decoding looks up. */
  ghost predicate Within(table: map<nat, Entry>, root: nat, used: nat) {
    && Below(table, used)
    && forall h: nat {:trigger Low(h, root)} ::
         && Low(h, root) < used
         && (var e := Get(table, Low(h, root)); Pointer(e) ==> e.val + Shr(Low(h, e.bits + e.op), e.bits) < used)
  }

  lemma BuiltWithin(w: nat, lens: seq<nat>, kind: CodeType, table: map<nat, Entry>, root: nat,
                    next: nat, curr: nat, drop: nat, low: int, k: nat, used: nat)
    requires Input(w, lens, kind) && Built(w, lens, kind, table, root, next, curr, drop, low, k)
    requires Below(table, used) && used == next + Pow2(curr)
    ensures Within(table, root, used)
  {
    hide Good, FitsGroup, Low, Pow2, Below, Shr;
    forall h: nat
      ensures Low(h, root) < used
      ensures var e := Get(table, Low(h, root)); Pointer(e) ==> e.val + Shr(Low(h, e.bits + e.op), e.bits) < used
    {
      var e := Get(table, Low(h, root));
      assert Low(h, root) < Pow2(root);
      if Pointer(e) {
        SubAddress(h, root, e.op);
      }
    }
  }

  lemma BuiltPointers(w: nat, lens: seq<nat>, kind: CodeType, table: map<nat, Entry>, root: nat,
                      next: nat, curr: nat, drop: nat, low: int, k: nat)
    requires Input(w, lens, kind) && Built(w, lens, kind, table, root, next, curr, drop, low, k)
    ensures PointersAtRoot(table, root)
  {
    hide Good, FitsGroup, Low, Pow2;
    forall h: nat | Pointer(Get(table, Low(h, root))) ensures Get(table, Low(h, root)).bits == root {
      assert Low(h, root) < Pow2(root);
    }
  }

  /** The current table is the sub-table at next that root entry low leads to; the
      other sub-tables lie between the root table and it. */
  ghost predicate SubShape(table: map<nat, Entry>, root: nat, next: nat, curr: nat, low: nat) {
    && Pow2(root) <= next && low < Pow2(root) && 1 <= curr < 16
    && Get(table, low) == Entry(curr, root, next)
    && forall a: nat :: a < Pow2(root) && a != low && Pointer(Get(table, a)) ==>
         var e := Get(table, a);
         e.bits == root && Pow2(root) <= e.val && e.val + Pow2(e.op) <= next
  }

  /** table' is table with e entered for the codes that begin with c in the current table. */
  ghost predicate Filled(table: map<nat, Entry>, table': map<nat, Entry>, next: nat, curr: nat, t: nat, c: nat, e: Entry) {
    forall a: nat {:trigger Get(table', a)} :: Get(table', a) == if Replica(a, next, curr, t, c) then e else Get(table, a)
  }

  lemma RootKeeps(w: nat, lens: seq<nat>, table: map<nat, Entry>, table': map<nat, Entry>, root: nat, k: nat, e: Entry, j: nat, h: nat)
    requires NotOversubscribed(w, lens) && j < k < |Work(w, lens)| && LenAt(w, lens, k) <= root
    requires RootShape(table) && Filled(table, table', 0, root, LenAt(w, lens, k), Huff(w, lens, k), e)
    requires Low(h, LenAt(w, lens, j)) == Huff(w, lens, j)
    ensures Lookup(table', root, h) == Lookup(table, root, h)
  {
    hide Low, Pow2, Start, Canon, Huff;
    NotBoth(w, lens, j, k, h);
    LowLow(h, root, LenAt(w, lens, k));
    var a := Low(h, root);
    assert Get(table', a) == Get(table, a);
  }

  lemma RootFinds(w: nat, lens: seq<nat>, table: map<nat, Entry>, table': map<nat, Entry>, root: nat, k: nat, e: Entry, h: nat)
    requires k < |Work(w, lens)| && LenAt(w, lens, k) <= root && !Pointer(e)
    requires Filled(table, table', 0, root, LenAt(w, lens, k), Huff(w, lens, k), e)
    requires Low(h, LenAt(w, lens, k)) == Huff(w, lens, k)
    ensures Lookup(table', root, h) == (e, e.bits)
  {
    hide Low, Pow2, Start, Canon, Huff;
    LowLow(h, root, LenAt(w, lens, k));
    assert Replica(Low(h, root), 0, root, LenAt(w, lens, k), Huff(w, lens, k));
    assert Get(table', Low(h, root)) == e;
  }

  /** The second-level address for the bits h. */
  lemma SubAddress(h: nat, root: nat, op: nat)
    ensures Shr(Low(h, root + op), root) == Low(Shr(h, root), op) < Pow2(op)
  {
    ShrLow(h, root, op);
  }

  lemma SubKeeps(w: nat, lens: seq<nat>, table: map<nat, Entry>, table': map<nat, Entry>, root: nat, next: nat, curr: nat,
                 k: nat, e: Entry, j: nat, h: nat)
    requires NotOversubscribed(w, lens) && j < k < |Work(w, lens)| && root < LenAt(w, lens, k) <= root + curr
    requires SubShape(table, root, next, curr, Low(Huff(w, lens, k), root))
    requires Filled(table, table', next, curr, LenAt(w, lens, k) - root, Shr(Huff(w, lens, k), root), e)
    requires Low(h, LenAt(w, lens, j)) == Huff(w, lens, j)
    ensures Lookup(table', root, h) == Lookup(table, root, h)
  {
    hide Low, Pow2, Start, Canon, Huff, Shr;
    var hk, t := Huff(w, lens, k), LenAt(w, lens, k) - root;
    NotBoth(w, lens, j, k, h);
    HuffBound(w, lens, k);
    LowSplit(h, hk, root, t);
    var r := Low(h, root);
    var e0 := Get(table, r);
    assert !Replica(r, next, curr, t, Shr(hk, root));
    assert Get(table', r) == e0;
    if Pointer(e0) {
      SubAddress(h, root, e0.op);
      var b := Low(Shr(h, root), e0.op);
      if r == Low(hk, root) {
        LowLow(Shr(h, root), curr, t);
        HuffHigh(w, lens, k, root);
        assert Low(b, t) == Low(Shr(h, root), t) != Shr(hk, root);
      }
      assert !Replica(e0.val + b, next, curr, t, Shr(hk, root));
      assert Get(table', e0.val + b) == Get(table, e0.val + b);
    }
  }

  lemma HuffHigh(w: nat, lens: seq<nat>, k: nat, root: nat)
    requires k < |Work(w, lens)| && root <= LenAt(w, lens, k)
    ensures var hk, t := Huff(w, lens, k), LenAt(w, lens, k) - root;
            Shr(hk, root) < Pow2(t) && Low(Shr(hk, root), t) == Shr(hk, root)
  {
    hide Low, Pow2, Start, Canon, Huff, Shr;
    HuffBound(w, lens, k);
    var hk, t := Huff(w, lens, k), LenAt(w, lens, k) - root;
    ShrBound(hk, LenAt(w, lens, k), t);
    LowSmall(Shr(hk, root), t);
  }

  lemma SubFinds(w: nat, lens: seq<nat>, table: map<nat, Entry>, table': map<nat, Entry>, root: nat, next: nat, curr: nat,
                 k: nat, e: Entry, h: nat)
    requires k < |Work(w, lens)| && root < LenAt(w, lens, k) <= root + curr
    requires SubShape(table, root, next, curr, Low(Huff(w, lens, k), root))
    requires Filled(table, table', next, curr, LenAt(w, lens, k) - root, Shr(Huff(w, lens, k), root), e)
    requires Low(h, LenAt(w, lens, k)) == Huff(w, lens, k)
    ensures Lookup(table', root, h) == (e, root + e.bits)
  {
    hide Low, Pow2, Start, Canon, Huff, Shr;
    var hk, t := Huff(w, lens, k), LenAt(w, lens, k) - root;
    HuffBound(w, lens, k);
    HuffHigh(w, lens, k, root);
    LowSplit(h, hk, root, t);
    var r := Low(h, root);
    assert !Replica(r, next, curr, t, Shr(hk, root));
    assert Get(table', r) == Entry(curr, root, next);
    SubAddress(h, root, curr);
    LowLow(Shr(h, root), curr, t);
    var b := Low(Shr(h, root), curr);
    assert Replica(next + b, next, curr, t, Shr(hk, root));
    assert Get(table', next + b) == e;
  }

  lemma SubShapeKept(w: nat, lens: seq<nat>, table: map<nat, Entry>, table': map<nat, Entry>, root: nat, next: nat, curr: nat,
                     low: nat, t: nat, c: nat, e: Entry)
    requires SubShape(table, root, next, curr, low) && Filled(table, table', next, curr, t, c, e)
    ensures SubShape(table', root, next, curr, low)
  {
    hide Low, Pow2;
    forall a: nat | a < Pow2(root) ensures Get(table', a) == Get(table, a) {
      assert !Replica(a, next, curr, t, c);
    }
  }

  // ---------- groups of codes that share a sub-table ----------

  /** Codes from the k-th on whose first root bits are low fit a sub-table of curr bits. */
  ghost predicate FitsGroup(w: nat, lens: seq<nat>, root: nat, curr: nat, low: int, k: nat) {
    forall i: nat {:trigger Huff(w, lens, i)} :: k <= i < |Work(w, lens)| && Low(Huff(w, lens, i), root) == low ==>
      LenAt(w, lens, i) <= root + curr
  }

  /** The first root bits of a code number its group. */
  lemma GroupOf(w: nat, lens: seq<nat>, k: nat, root: nat)
    requires NotOversubscribed(w, lens) && k < |Work(w, lens)| && root <= w
    ensures Low(Huff(w, lens, k), root) == Rev(root, Shr(Start(w, lens, k), w - root))
    ensures Shr(Start(w, lens, k), w - root) < Pow2(root)
  {
    hide Rev, Low, Shr, Pow2, Start, Canon;
    LowRev(w, Start(w, lens, k), root);
    StartBound(w, lens, k);
    ShrBound(Start(w, lens, k), w, root);
  }

  /** The codes of one group are consecutive. */
  lemma SameGroup(w: nat, lens: seq<nat>, i: nat, j: nat, k: nat, root: nat)
    requires NotOversubscribed(w, lens) && i <= j <= k < |Work(w, lens)| && root <= w
    requires Low(Huff(w, lens, i), root) == Low(Huff(w, lens, k), root)
    ensures Low(Huff(w, lens, j), root) == Low(Huff(w, lens, k), root)
  {
    hide Rev, Low, Shr, Pow2, Start, Canon, Huff;
    GroupOf(w, lens, i, root);
    GroupOf(w, lens, j, root);
    GroupOf(w, lens, k, root);
    var m := w - root;
    RevInjective(root, Shr(Start(w, lens, i), m), Shr(Start(w, lens, k), m));
    StartMonotone(w, lens, i, j);
    StartMonotone(w, lens, j, k);
    ShrMonotone(Start(w, lens, i), Start(w, lens, j), m);
    ShrMonotone(Start(w, lens, j), Start(w, lens, k), m);
  }

  /** If the codes of at most root + curr bits fill the group of the k-th, longer codes are in other groups. */
  lemma GroupFilled(w: nat, lens: seq<nat>, root: nat, curr: nat, k: nat)
    requires NotOversubscribed(w, lens) && k < |Work(w, lens)| && root + curr <= w
    requires Start(w, lens, k) + Pow2(w - root) <= Kraft(w, lens, root + curr)
    ensures FitsGroup(w, lens, root, curr, Low(Huff(w, lens, k), root), k)
  {
    hide Rev, Low, Shr, Pow2, Start, Canon, Huff, Kraft;
    var m := w - root;
    GroupOf(w, lens, k, root);
    AddPow2(Start(w, lens, k), m);
    forall i: nat | k <= i < |Work(w, lens)| && LenAt(w, lens, i) > root + curr
      ensures Low(Huff(w, lens, i), root) != Low(Huff(w, lens, k), root)
    {
      StartAfterLevel(w, lens, root + curr);
      LevelOf(w, lens, i);
      CanonPrefix(lens, root + curr, LenAt(w, lens, i) - 1);
      StartMonotone(w, lens, |Canon(lens, root + curr)|, i);
      ShrMonotone(Start(w, lens, k) + Pow2(m), Start(w, lens, i), m);
      GroupOf(w, lens, i, root);
      if Rev(root, Shr(Start(w, lens, i), m)) == Rev(root, Shr(Start(w, lens, k), m)) {
        RevInjective(root, Shr(Start(w, lens, i), m), Shr(Start(w, lens, k), m));
      }
    }
  }

  // ---------- the state between two codes ----------

  /** The codes before the k-th are entered, and the current table is as described. */
  ghost predicate Built(w: nat, lens: seq<nat>, kind: CodeType, table: map<nat, Entry>, root: nat,
                        next: nat, curr: nat, drop: nat, low: int, k: nat)
    requires Input(w, lens, kind)
  {
    && k <= |Work(w, lens)| && 1 <= root <= w
    && (forall j: nat {:trigger Good(w, lens, kind, table, root, j)} :: j < k ==> Good(w, lens, kind, table, root, j))
    && (k > 0 ==> (drop != 0 <==> LenAt(w, lens, k - 1) > root))
    && if drop == 0 then
         RootShape(table) && next == 0 && curr == root && low == -1
       else
         && drop == root && low >= 0 && k > 0 && SubShape(table, root, next, curr, low)
         && low == Low(Huff(w, lens, k - 1), root) && FitsGroup(w, lens, root, curr, low, k)
  }

  /** The current table is the one the k-th code goes into. */
  ghost predicate Ready(w: nat, lens: seq<nat>, kind: CodeType, table: map<nat, Entry>, root: nat,
                        next: nat, curr: nat, drop: nat, low: int, k: nat)
    requires Input(w, lens, kind)
  {
    && k < |Work(w, lens)| && 1 <= root <= w
    && (forall j: nat {:trigger Good(w, lens, kind, table, root, j)} :: j < k ==> Good(w, lens, kind, table, root, j))
    && (drop != 0 <==> LenAt(w, lens, k) > root)
    && if drop == 0 then
         RootShape(table) && next == 0 && curr == root && low == -1
       else
         && drop == root && low == Low(Huff(w, lens, k), root)
         && SubShape(table, root, next, curr, low) && FitsGroup(w, lens, root, curr, low, k)
  }

  /** Filling in the k-th code. */
  lemma EnterCode(w: nat, lens: seq<nat>, kind: CodeType, table: map<nat, Entry>, table': map<nat, Entry>, root: nat,
                  next: nat, curr: nat, drop: nat, low: int, k: nat)
    requires Input(w, lens, kind) && Ready(w, lens, kind, table, root, next, curr, drop, low, k)
    requires drop <= LenAt(w, lens, k)
    requires Filled(table, table', next, curr, LenAt(w, lens, k) - drop, Shr(Huff(w, lens, k), drop),
                    Leaf(kind, Work(w, lens)[k], LenAt(w, lens, k) - drop))
    ensures Built(w, lens, kind, table', root, next, curr, drop, low, k + 1)
  {
    hide Low, Shr, Pow2, Start, Canon, Huff, Leaf, Lookup, Kraft;
    var e := Leaf(kind, Work(w, lens)[k], LenAt(w, lens, k) - drop);
    if drop == 0 {
      ShrNone(Huff(w, lens, k));
      forall j: nat | j < k ensures Good(w, lens, kind, table', root, j) {
        assert Good(w, lens, kind, table, root, j);
        forall h: nat | Low(h, LenAt(w, lens, j)) == Huff(w, lens, j)
          ensures Decodes(table', root, h, kind, Work(w, lens)[j], LenAt(w, lens, j))
        {
          RootKeeps(w, lens, table, table', root, k, e, j, h);
          assert Decodes(table, root, h, kind, Work(w, lens)[j], LenAt(w, lens, j));
        }
      }
      forall h: nat | Low(h, LenAt(w, lens, k)) == Huff(w, lens, k)
        ensures Decodes(table', root, h, kind, Work(w, lens)[k], LenAt(w, lens, k))
      {
        RootFinds(w, lens, table, table', root, k, e, h);
      }
      assert Good(w, lens, kind, table', root, k);
    } else {
      forall j: nat | j < k ensures Good(w, lens, kind, table', root, j) {
        assert Good(w, lens, kind, table, root, j);
        forall h: nat | Low(h, LenAt(w, lens, j)) == Huff(w, lens, j)
          ensures Decodes(table', root, h, kind, Work(w, lens)[j], LenAt(w, lens, j))
        {
          SubKeeps(w, lens, table, table', root, next, curr, k, e, j, h);
          assert Decodes(table, root, h, kind, Work(w, lens)[j], LenAt(w, lens, j));
        }
      }
      forall h: nat | Low(h, LenAt(w, lens, k)) == Huff(w, lens, k)
        ensures Decodes(table', root, h, kind, Work(w, lens)[k], LenAt(w, lens, k))
      {
        SubFinds(w, lens, table, table', root, next, curr, k, e, h);
      }
      assert Good(w, lens, kind, table', root, k);
      SubShapeKept(w, lens, table, table', root, next, curr, low, LenAt(w, lens, k) - drop, Shr(Huff(w, lens, k), drop), e);
    }
  }

  lemma ShrNone(x: nat)
    ensures Shr(x, 0) == x
  {
  }

  /** A new sub-table for the k-th code disturbs no code entered before. */
  lemma PointerKeeps(w: nat, lens: seq<nat>, kind: CodeType, table: map<nat, Entry>, root: nat,
                     next: nat, curr: nat, drop: nat, low: int, k: nat, e: Entry, j: nat, h: nat)
    requires Input(w, lens, kind) && Built(w, lens, kind, table, root, next, curr, drop, low, k) && j < k < |Work(w, lens)|
    requires Low(Huff(w, lens, k), root) != low
    requires Low(h, LenAt(w, lens, j)) == Huff(w, lens, j)
    ensures Lookup(table[Low(Huff(w, lens, k), root) := e], root, h) == Lookup(table, root, h)
  {
    hide Low, Shr, Pow2, Start, Canon, Huff, Kraft, FitsGroup;
    var low' := Low(Huff(w, lens, k), root);
    var r := Low(h, root);
    if r == low' {
      if LenAt(w, lens, j) <= root {
        LowLow(h, root, LenAt(w, lens, j));
        LowLow(Huff(w, lens, k), root, LenAt(w, lens, j));
        PrefixFree(w, lens, j, k);
      } else {
        LowLow(h, LenAt(w, lens, j), root);
        SameGroup(w, lens, j, k - 1, k, root);
        Ordered(w, lens, j, k - 1);
      }
    }
    var table' := table[low' := e];
    assert Get(table', r) == Get(table, r);
    var e0 := Get(table, r);
    if Pointer(e0) {
      assert Pow2(root) <= e0.val;
      var a := e0.val + Shr(Low(h, e0.bits + e0.op), e0.bits);
      assert Get(table', a) == Get(table, a);
    }
  }

  lemma NewSubTable(w: nat, lens: seq<nat>, kind: CodeType, table: map<nat, Entry>, root: nat,
                    next: nat, curr: nat, drop: nat, low: int, k: nat, curr': nat)
    requires Input(w, lens, kind) && Built(w, lens, kind, table, root, next, curr, drop, low, k) && k < |Work(w, lens)|
    requires LenAt(w, lens, k) > root && Low(Huff(w, lens, k), root) != low
    requires 1 <= curr' < 16 && FitsGroup(w, lens, root, curr', Low(Huff(w, lens, k), root), k)
    ensures var low', next' := Low(Huff(w, lens, k), root), next + Pow2(curr);
            Ready(w, lens, kind, table[low' := Entry(curr', root, next')], root, next', curr', root, low', k)
  {
    hide Low, Shr, Start, Canon, Huff, Kraft, FitsGroup, Lookup, Leaf;
    var low', next' := Low(Huff(w, lens, k), root), next + Pow2(curr);
    var e := Entry(curr', root, next');
    var table' := table[low' := e];
    forall j: nat | j < k ensures Good(w, lens, kind, table', root, j) {
      assert Good(w, lens, kind, table, root, j);
      forall h: nat | Low(h, LenAt(w, lens, j)) == Huff(w, lens, j)
        ensures Decodes(table', root, h, kind, Work(w, lens)[j], LenAt(w, lens, j))
      {
        PointerKeeps(w, lens, kind, table, root, next, curr, drop, low, k, e, j, h);
        assert Decodes(table, root, h, kind, Work(w, lens)[j], LenAt(w, lens, j));
      }
    }
    forall a: nat ensures Get(table', a) == if a == low' then e else Get(table, a) {
    }
    assert SubShape(table', root, next', curr', low');
  }

  /** If no new sub-table is needed the k-th code goes into the current table. */
  lemma SameTable(w: nat, lens: seq<nat>, kind: CodeType, table: map<nat, Entry>, root: nat,
                  next: nat, curr: nat, drop: nat, low: int, k: nat)
    requires Input(w, lens, kind) && Built(w, lens, kind, table, root, next, curr, drop, low, k) && 0 < k < |Work(w, lens)|
    requires !(LenAt(w, lens, k) > root && Low(Huff(w, lens, k), root) != low)
    ensures Ready(w, lens, kind, table, root, next, curr, drop, low, k)
  {
    hide Low, Shr, Start, Canon, Huff, Kraft, Lookup, Leaf, Good;
    Ordered(w, lens, k - 1, k);
    if drop != 0 {
      assert LenAt(w, lens, k) > root;
    }
  }

  // ---------- the parts of the routine ----------

  /** Counts the codes of each length. */
  method CountLengths(w: nat, lens: seq<nat>) returns (count: seq<nat>)
    requires LensOK(w, lens)
    ensures |count| == w + 1 && forall l {:trigger count[l]} :: 0 <= l <= w ==> count[l] == Count(lens, l)
  {
    hide Count;
    count := seq(w + 1, _ => 0);
    CountNone();
    assert lens[..0] == [];
    for sym := 0 to |lens|
      invariant |count| == w + 1 && forall l {:trigger count[l]} :: 0 <= l <= w ==> count[l] == Count(lens[..sym], l)
    {
      CountStep(lens, sym);
      count := count[lens[sym] := count[lens[sym]] + 1];
    }
    assert lens[..|lens|] == lens;
  }

  /** The Kraft check: -1 if over-subscribed, else what is left of the code space. */
  method CodesLeft(w: nat, lens: seq<nat>, count: seq<nat>) returns (left: int)
    requires |count| == w + 1 && forall l {:trigger count[l]} :: 0 <= l <= w ==> count[l] == Count(lens, l)
    ensures left < 0 <==> Kraft(w, lens, w) > Pow2(w)
    ensures left >= 0 ==> left == Pow2(w) - Kraft(w, lens, w)
  {
    hide Shl, Count, Pow2;
    left := 1;
    Pow2Shl(0, w);
    var len := 1;
    while len <= w
      invariant 1 <= len <= w + 1 && left >= 0
      invariant Shl(left, w - len + 1) + Kraft(w, lens, len - 1) == Pow2(w)
    {
      ShlDouble(left, w - len);
      left := left * 2;
      if left < count[len] {
        ShlMonotone(left, count[len], w - len);
        KraftMonotone(w, lens, len, w);
        return -1;
      }
      ShlAdd(left - count[len], count[len], w - len);
      left := left - count[len];
      len := len + 1;
    }
    ShlNone(left);
  }

  /** The counting sort of the symbols by length. */
  method SortSymbols(w: nat, lens: seq<nat>, count: seq<nat>) returns (work: seq<nat>)
    requires LensOK(w, lens) && w >= 1
    requires |count| == w + 1 && forall l {:trigger count[l]} :: 0 <= l <= w ==> count[l] == Count(lens, l)
    ensures work == Work(w, lens)
  {
    hide Canon, SymsOf, Count;
    var offs := seq(w + 1, _ => 0);
    CanonNone(lens);
    var len := 1;
    while len < w
      invariant 1 <= len <= w && |offs| == w + 1
      invariant forall l {:trigger offs[l]} :: 1 <= l <= len ==> offs[l] == |Canon(lens, l - 1)|
    {
      CanonLength(lens, len);
      offs := offs[len + 1 := offs[len] + count[len]];
      len := len + 1;
    }
    ghost var first := offs;
    work := seq(|Work(w, lens)|, _ => 0);
    CountNone();
    assert lens[..0] == [];
    for sym := 0 to |lens|
      invariant |work| == |Work(w, lens)| && |offs| == w + 1
      invariant forall l {:trigger offs[l]} :: 1 <= l <= w ==> offs[l] == first[l] + Count(lens[..sym], l)
      invariant forall n {:trigger lens[n]} :: 0 <= n < sym && lens[n] > 0 ==>
                  Pos(lens, n) < |work| && work[Pos(lens, n)] == n
    {
      CountStep(lens, sym);
      if lens[sym] != 0 {
        WorkAtPos(w, lens, sym);
        forall n | 0 <= n < sym && lens[n] > 0 ensures Pos(lens, n) != Pos(lens, sym) {
          WorkAtPos(w, lens, n);
        }
        work := work[offs[lens[sym]] := sym];
        offs := offs[lens[sym] := offs[lens[sym]] + 1];
      }
    }
    forall k | 0 <= k < |work| ensures work[k] == Work(w, lens)[k] {
      PosOfWork(w, lens, k);
    }
  }

  /** Every position of the canonical order is that of its symbol. */
  lemma PosOfWork(w: nat, lens: seq<nat>, k: nat)
    requires LensOK(w, lens) && k < |Work(w, lens)|
    ensures lens[Work(w, lens)[k]] > 0 && Pos(lens, Work(w, lens)[k]) == k
  {
    hide Canon, SymsOf;
    LevelOf(w, lens, k);
    var l := lens[Work(w, lens)[k]];
    CanonLength(lens, l);
    CanonLevel(w, lens, l, k);
    SymsIndex(lens, l, k - |Canon(lens, l - 1)|);
  }

  lemma {:induction false} SymsIndex(lens: seq<nat>, l: nat, i: nat)
    requires i < Count(lens, l)
    ensures SymsOf(lens, l)[i] < |lens| && Count(lens[..SymsOf(lens, l)[i]], l) == i
    decreases |lens|
  {
    var last := |lens| - 1;
    if i < Count(lens[..last], l) {
      SymsIndex(lens[..last], l, i);
      var n := SymsOf(lens, l)[i];
      assert lens[..last][..n] == lens[..n];
    }
  }

  /** The space for a table: the root, and for sub-tables as much again as there are codes and
      one more sub-table. */
  function Space(w: nat, lens: seq<nat>, root: nat, max: nat): nat {
    Pow2(root) + if max > root then |Work(w, lens)| + Pow2(max - root) else 0
  }

  lemma NoSubTables(w: nat, lens: seq<nat>, root: nat, curr: nat, used: nat)
    requires root <= w && used == Pow2(root)
    ensures Room(w, lens, root, curr, 0, used, 0, 1)
  {
  }

  /** Looks ahead in the counts for the size of a new sub-table. */
  method SubTableBits(w: nat, lens: seq<nat>, kind: CodeType, count: seq<nat>, root: nat, len: nat, max: nat, ghost k: nat)
    returns (curr: nat)
    requires Input(w, lens, kind) && w < 16 && k < |Work(w, lens)| && 1 <= root < len == LenAt(w, lens, k) && len <= max <= w
    requires forall i: nat :: i < |Work(w, lens)| ==> LenAt(w, lens, i) <= max
    requires |count| == w + 1 && count[len] == |Canon(lens, len)| - k
    requires forall l {:trigger count[l]} :: len < l <= w ==> count[l] == Count(lens, l)
    ensures 1 <= curr < 16 && root + curr <= max && FitsGroup(w, lens, root, curr, Low(Huff(w, lens, k), root), k)
    ensures NotWider(w, lens, root, curr, k)
  {
    hide Canon, SymsOf, Count, Start, Shl, Pow2, Low, Huff, Kraft;
    LevelOf(w, lens, k);
    curr := len - root;
    var left: int := Pow2(curr);
    Pow2Shl(curr, w - len);
    while curr + root < max
      invariant len <= curr + root <= max && left > 0
      invariant Shl(left, w - curr - root) + Ahead(w, lens, k, len, curr + root - 1) == Start(w, lens, k) + Pow2(w - root)
    {
      var c := count[curr + root];
      Shl0(w - curr - root);
      ShlMonotone(0, left, w - curr - root);
      AheadStep(w, lens, k, len, curr + root, c);
      if left <= c {
        ShlMonotone(c, left, w - curr - root);
        GroupFilled(w, lens, root, curr, k);
        return;
      }
      ShlAdd(left - c, c, w - curr - root);
      ShlDouble(left - c, w - curr - root - 1);
      left := left - c;
      curr := curr + 1;
      left := left * 2;
    }
    Shl0(w - curr - root);
    ShlMonotone(0, left, w - curr - root);
  }

  /** Where the codes of at most l bits end, counting from the k-th. */
  ghost function Ahead(w: nat, lens: seq<nat>, k: nat, len: nat, l: nat): nat
    requires k < |Work(w, lens)| && l <= w
  {
    if l < len then Start(w, lens, k) else Kraft(w, lens, l)
  }

  lemma AheadStep(w: nat, lens: seq<nat>, k: nat, len: nat, l: nat, c: nat)
    requires k < |Work(w, lens)| && len == LenAt(w, lens, k) && len <= l <= w
    requires c == if l == len then |Canon(lens, len)| - k else Count(lens, l)
    ensures Ahead(w, lens, k, len, l) == Ahead(w, lens, k, len, l - 1) + Shl(c, w - l)
  {
    hide Canon, SymsOf, Count, Start, Shl;
    if l == len {
      LevelOf(w, lens, k);
      CanonLength(lens, len);
      var i := k - |Canon(lens, len - 1)|;
      StartInLevel(w, lens, len, i);
      ShlAdd(i, c, w - len);
    }
  }

  /** Incrementing a stored code gives the next one. */
  lemma NextHuff(w: nat, lens: seq<nat>, k: nat)
    requires k < |Work(w, lens)|
    ensures BackIncrement(LenAt(w, lens, k), Huff(w, lens, k)) == Huff(w, lens, k + 1)
  {
    hide Rev, Low, Shr, Pow2, Canon, BackIncrement;
    var l := LenAt(w, lens, k);
    HuffOwnLength(w, lens, k);
    BackIncrementRev(l, Shr(Start(w, lens, k), w - l));
    AddPow2(Start(w, lens, k), w - l);
    Aligned(w, lens, k);
    RevZeros(l, w, Start(w, lens, k + 1));
  }

  /** The counts that remain when the k-th code is next. */
  ghost predicate CountsFrom(w: nat, lens: seq<nat>, count: seq<nat>, k: nat)
    requires k < |Work(w, lens)|
  {
    && |count| == w + 1
    && count[LenAt(w, lens, k)] == |Canon(lens, LenAt(w, lens, k))| - k
    && forall l {:trigger count[l]} :: LenAt(w, lens, k) < l <= w ==> count[l] == Count(lens, l)
  }

  ghost predicate Longest(w: nat, lens: seq<nat>, max: nat) {
    && max <= w && (forall l {:trigger Count(lens, l)} :: max < l <= w ==> Count(lens, l) == 0)
    && (max > 0 ==> Count(lens, max) > 0)
  }

  lemma LongestCode(w: nat, lens: seq<nat>, max: nat)
    requires Longest(w, lens, max)
    ensures |Canon(lens, max)| == |Work(w, lens)|
    ensures forall i: nat :: i < |Work(w, lens)| ==> LenAt(w, lens, i) <= max
  {
    hide Canon, SymsOf, Count;
    NoLonger(lens, max, w);
    forall i: nat | i < |Work(w, lens)| ensures LenAt(w, lens, i) <= max {
      LevelOf(w, lens, i);
      CanonLength(lens, LenAt(w, lens, i));
    }
  }

  lemma {:induction false} NoLonger(lens: seq<nat>, l: nat, m: nat)
    requires l <= m && forall i {:trigger Count(lens, i)} :: l < i <= m ==> Count(lens, i) == 0
    ensures |Canon(lens, l)| == |Canon(lens, m)|
    decreases m
  {
    hide Canon, SymsOf, Count;
    if l < m {
      NoLonger(lens, l, m - 1);
      CanonLength(lens, m);
      assert Count(lens, m) == 0;
    }
  }

  /** After the last code of its length, the next code is of the next length in use. */
  lemma NextCode(w: nat, lens: seq<nat>, count: seq<nat>, k: nat, max: nat)
    requires Longest(w, lens, max) && k < |Work(w, lens)| && CountsFrom(w, lens, count, k)
    ensures count[LenAt(w, lens, k)] > 0
    ensures var l := LenAt(w, lens, k);
            var count' := count[l := count[l] - 1];
            if count'[l] == 0 && l == max then k + 1 == |Work(w, lens)|
            else (k + 1 < |Work(w, lens)| && CountsFrom(w, lens, count', k + 1)
                  && (count'[l] > 0 ==> LenAt(w, lens, k + 1) == l))
  {
    hide Canon, SymsOf, Count, Work;
    var l := LenAt(w, lens, k);
    LevelOf(w, lens, k);
    LongestCode(w, lens, max);
    WorkCanon(w, lens, l);
    if k + 1 < |Canon(lens, l)| {
      CanonLevel(w, lens, l, k + 1);
    } else if l < max {
      CanonLength(lens, max);
      CanonPrefix(lens, l, max - 1);
      Ordered(w, lens, k, k + 1);
      LevelOf(w, lens, k + 1);
      var m := LenAt(w, lens, k + 1);
      if m == l {
        assert false;
      }
      FirstOfLevel(w, lens, k, m);
    }
  }

  lemma WorkCanon(w: nat, lens: seq<nat>, l: nat)
    requires l <= w
    ensures |Canon(lens, l)| <= |Work(w, lens)|
  {
    CanonPrefix(lens, l, w);
  }

  lemma FirstOfLevel(w: nat, lens: seq<nat>, k: nat, m: nat)
    requires k + 1 < |Work(w, lens)| && m == LenAt(w, lens, k + 1) && LenAt(w, lens, k) < m
    ensures Count(lens, m) == |Canon(lens, m)| - (k + 1)
  {
    hide Canon, SymsOf;
    LevelOf(w, lens, k);
    LevelOf(w, lens, k + 1);
    CanonPrefix(lens, LenAt(w, lens, k), m - 1);
    CanonLength(lens, m);
    if |Canon(lens, m - 1)| < k + 1 {
      CanonLevel(w, lens, m, k);
    }
  }

  // ---------- the routine ----------

  /** Enters every code. Returns 1 if the table space of a literal/length code is used up. */
  method EnterCodes(w: nat, kind: CodeType, lens: seq<nat>, work: seq<nat>, count0: seq<nat>, root: nat, min: nat, max: nat)
    returns (ret: int, table: map<nat, Entry>, used: nat, huff: nat, len: nat, next: nat, drop: nat, low: int)
    requires w < 16 && Input(w, lens, kind) && work == Work(w, lens) && |work| > 0
    requires Longest(w, lens, max) && 1 <= min <= root <= max && min == LenAt(w, lens, 0)
    requires |count0| == w + 1 && forall l {:trigger count0[l]} :: 0 <= l <= w ==> count0[l] == Count(lens, l)
    requires Kraft(w, lens, w) == Pow2(w) || max == 1
    ensures ret == 0 || (ret == 1 && kind == LENS)
    ensures used <= Space(w, lens, root, max)
    ensures ret == 0 ==>
              && huff == Huff(w, lens, |work|) && len == LenAt(w, lens, |work| - 1)
              && forall j: nat {:trigger Good(w, lens, kind, table, root, j)} ::
                   j < |work| ==> Good(w, lens, kind, table, root, j)
    ensures ret == 0 ==> drop <= len
    ensures ret == 0 && len <= root ==> drop == 0 && next == 0 && RootShape(table)
    ensures ret == 0 ==> PointersAtRoot(table, root) && Within(table, root, used)
    ensures kind == LENS ==> (ret == 1 <==> used >= ENOUGH - MAXD)
  {
    hide Canon, SymsOf, Count, Start, Low, Shr, Rev, Pow2, Leaf, Good, Lookup, Kraft, Huff, FitsGroup, SubShape, RootShape, CountsFrom, PointersAtRoot,
      Below, Within, FirstInGroup, NotWider, Room, Built, Ready, Input;
    StartAtZero(w, lens);
    FirstCounts(w, lens, count0);
    EmptyTable();
    var count := count0;
    table := map[];
    huff := 0;
    var sym := 0;
    len := min;
    next := 0;
    var curr := root;
    drop := 0;
    low := -1;
    ret := 0;
    used := Pow2(root);
    if kind == LENS && used >= ENOUGH - MAXD {
      return 1, table, used, huff, len, next, drop, low;
    }
    LongestCode(w, lens, max);
    NothingBelow(used);
    ghost var first := 0;
    NoSubTables(w, lens, root, curr, used);
    ReadyFirst(w, lens, kind, root);
    while true
      invariant used == next + Pow2(curr) && Below(table, used) && Pow2(root) <= used && (kind == LENS ==> used < ENOUGH - MAXD)
      invariant sym < |work| && len == LenAt(w, lens, sym) && huff == Huff(w, lens, sym)
      invariant Ready(w, lens, kind, table, root, next, curr, drop, low, sym)
      invariant CountsFrom(w, lens, count, sym)
      invariant Room(w, lens, root, curr, drop, used, first, sym + 1) && used <= Space(w, lens, root, max)
      decreases |work| - sym
    {
      CodeFitsTable(w, lens, kind, table, root, next, curr, drop, low, sym);
      SymbolInRange(w, lens, kind, sym);
      var e := Leaf(kind, work[sym], len - drop);
      ghost var before := table;
      table := Fill(table, next, curr, len - drop, Shr(huff, drop), e);
      EnterCode(w, lens, kind, before, table, root, next, curr, drop, low, sym);
      NextHuff(w, lens, sym);
      HuffBound(w, lens, sym);
      huff := Increment(len, huff);
      CountsInRange(w, lens, count, sym);
      NextCode(w, lens, count, sym, max);
      sym := sym + 1;
      count := count[len := count[len] - 1];
      if count[len] == 0 {
        if len == max {
          BuiltPointers(w, lens, kind, table, root, next, curr, drop, low, sym);
          BuiltWithin(w, lens, kind, table, root, next, curr, drop, low, sym, used);
          BuiltAll(w, lens, kind, table, root, next, curr, drop, low, sym);
          break;
        }
        len := lens[work[sym]];
      }
      ghost var drop0 := drop;
      if len > root && Low(huff, root) != low {
        drop := root;
        var full;
        full, table, next, curr, low, used := StartSubTable(w, kind, lens, table, count, root, max, len, huff, next, curr, drop0, low, used, first, sym);
        first := sym;
        if full {
          return 1, table, used, huff, len, next, drop, low;
        }
      } else {
        SameTable(w, lens, kind, table, root, next, curr, drop, low, sym);
        RoomStays(w, lens, root, curr, drop, used, first, sym);
      }
    }
  }

  /** A new sub-table after the current table, entered in the root table. */
  method StartSubTable(w: nat, kind: CodeType, lens: seq<nat>, table0: map<nat, Entry>, count: seq<nat>, root: nat, max: nat, len: nat, huff: nat,
                       next0: nat, curr0: nat, ghost drop: nat, ghost low0: int, used0: nat, ghost first: nat, ghost sym: nat)
    returns (full: bool, table: map<nat, Entry>, next: nat, curr: nat, low: int, used: nat)
    requires w < 16 && Input(w, lens, kind) && Longest(w, lens, max) && 0 < sym < |Work(w, lens)|
    requires Built(w, lens, kind, table0, root, next0, curr0, drop, low0, sym) && CountsFrom(w, lens, count, sym)
    requires len == LenAt(w, lens, sym) > root && huff == Huff(w, lens, sym) && Low(huff, root) != low0
    requires used0 == next0 + Pow2(curr0) && Below(table0, used0) && Pow2(root) <= used0
    requires Kraft(w, lens, w) == Pow2(w) && Room(w, lens, root, curr0, drop, used0, first, sym)
    ensures full <==> kind == LENS && used >= ENOUGH - MAXD
    ensures used == next + Pow2(curr) && Below(table, used) && Pow2(root) <= used
    ensures Room(w, lens, root, curr, root, used, sym, sym + 1)
    ensures root < max && used <= Pow2(root) + |Work(w, lens)| + Pow2(max - root)
    ensures !full ==> Ready(w, lens, kind, table, root, next, curr, root, low, sym)
  {
    hide Canon, SymsOf, Count, Start, Low, Shr, Rev, Pow2, Leaf, Good, Lookup, Kraft, Huff, FitsGroup, SubShape, RootShape, CountsFrom, Below,
      Input, FirstInGroup, NotWider;
    LongestCode(w, lens, max);
    CountsHere(w, lens, count, sym);
    BuiltRoot(w, lens, kind, table0, root, next0, curr0, drop, low0, sym);
    RootBelow(huff, root);
    curr := SubTableBits(w, lens, kind, count, root, len, max, sym);
    NewSubTable(w, lens, kind, table0, root, next0, curr0, drop, low0, sym, curr);
    RoomPaid(w, lens, kind, table0, root, next0, curr0, drop, low0, used0, first, sym);
    GroupComplete(w, lens, root, sym);
    Pow2Monotone(curr, max - root);
    OffsetFits(w, lens, kind, root, curr0, drop, used0, sym);
    table := table0;
    next := next0 + Pow2(curr0);
    used := used0 + Pow2(curr);
    low := Low(huff, root);
    BelowMore(table, used0, low, Entry(curr, root, Ush(next)), used);
    full := kind == LENS && used >= ENOUGH - MAXD;
    if full {
      BelowLess(table, used0, used);
      return;
    }
    table := table[low := Entry(curr, root, Ush(next))];
  }

  lemma ReadyFirst(w: nat, lens: seq<nat>, kind: CodeType, root: nat)
    requires Input(w, lens, kind) && |Work(w, lens)| > 0 && 1 <= root <= w && LenAt(w, lens, 0) <= root
    ensures Ready(w, lens, kind, map[], root, 0, root, 0, -1, 0)
  {
    hide Kraft, Pow2, Canon, Huff;
    EmptyTable();
  }

  lemma SymbolInRange(w: nat, lens: seq<nat>, kind: CodeType, k: nat)
    requires Input(w, lens, kind) && k < |Work(w, lens)|
    ensures Work(w, lens)[k] < |lens| && Work(w, lens)[k] < MaxSymbols(kind)
  {
    hide Kraft, Pow2;
  }

  lemma BuiltAll(w: nat, lens: seq<nat>, kind: CodeType, table: map<nat, Entry>, root: nat,
                 next: nat, curr: nat, drop: nat, low: int, k: nat)
    requires Input(w, lens, kind) && Built(w, lens, kind, table, root, next, curr, drop, low, k) && k > 0
    ensures drop <= LenAt(w, lens, k - 1) && (LenAt(w, lens, k - 1) <= root ==> drop == 0 && next == 0 && RootShape(table))
    ensures k <= |Work(w, lens)| && forall j: nat {:trigger Good(w, lens, kind, table, root, j)} :: j < k ==> Good(w, lens, kind, table, root, j)
  {
    hide Good, SubShape, RootShape, FitsGroup, Huff, Low;
  }

  lemma BuiltRoot(w: nat, lens: seq<nat>, kind: CodeType, table: map<nat, Entry>, root: nat,
                  next: nat, curr: nat, drop: nat, low: int, k: nat)
    requires Input(w, lens, kind) && Built(w, lens, kind, table, root, next, curr, drop, low, k)
    ensures 1 <= root <= w
  {
  }

  lemma RootBelow(huff: nat, root: nat)
    ensures Low(huff, root) < Pow2(root)
  {
  }

  lemma BelowLess(table: map<nat, Entry>, m: nat, n: nat)
    requires Below(table, m) && m <= n
    ensures Below(table, n)
  {
  }

  lemma NothingBelow(n: nat)
    ensures Below(map[], n)
  {
  }

  lemma BelowMore(table: map<nat, Entry>, m: nat, a: nat, e: Entry, n: nat)
    requires Below(table, m) && m <= n && a < n
    ensures Below(table[a := e], n)
  {
  }

  /** Where the group of the k-th code ends. */
  // ---------- how much space the sub-tables take ----------

  /** A sub-table for the codes from the k-th on is not wider than its longest code: shorter
      codes do not fill the group. */
  ghost predicate NotWider(w: nat, lens: seq<nat>, root: nat, curr: nat, k: nat)
    requires k < |Work(w, lens)|
  {
    && LenAt(w, lens, k) <= root + curr <= w
    && (root + curr == LenAt(w, lens, k) || Kraft(w, lens, root + curr - 1) < Start(w, lens, k) + Pow2(w - root))
  }

  /** The k-th code is the first of its group. */
  ghost predicate FirstInGroup(w: nat, lens: seq<nat>, root: nat, k: nat)
    requires k <= |Work(w, lens)| && root <= w
  {
    Low(Start(w, lens, k), w - root) == 0
  }

  /** Before a new group, all of the last one is used up. */
  lemma GroupStart(w: nat, lens: seq<nat>, root: nat, k: nat)
    requires 0 < k < |Work(w, lens)| && root <= w
    requires LenAt(w, lens, k - 1) <= root || Shr(Start(w, lens, k - 1), w - root) != Shr(Start(w, lens, k), w - root)
    ensures FirstInGroup(w, lens, root, k)
  {
    hide Canon, Start, Shl, Shr, Low, Pow2;
    var l, m := LenAt(w, lens, k - 1), w - root;
    LevelOf(w, lens, k - 1);
    Aligned(w, lens, k - 1);
    if l <= root {
      LowLow(Start(w, lens, k), w - l, m);
      ZeroLow(m);
    } else {
      StartStep(w, lens, l, k - 1);
      StepInGroup(Start(w, lens, k - 1), w - l, m);
    }
  }

  lemma ZeroLow(m: nat)
    ensures Low(0, m) == 0
  {
    hide Pow2;
    LowSmall(0, m);
  }

  /** Adding one unit of q bits either stays within the group of m bits or reaches its end. */
  lemma StepInGroup(x: nat, q: nat, m: nat)
    requires q <= m && Low(x, q) == 0
    ensures Low(x + Pow2(q), m) == 0 || Shr(x + Pow2(q), m) == Shr(x, m)
  {
    hide Shl, Shr, Low, Pow2;
    var y := x + Pow2(q);
    var z := Low(y, m);
    AddPow2(x, q);
    LowLow(y, m, q);
    LowShr(y, m);
    if z != 0 {
      if z < Pow2(q) {
        LowSmall(z, q);
      }
      ShlShr(Shr(y, m), m);
      ShrMonotone(Shl(Shr(y, m), m), x, m);
      ShrMonotone(x, y, m);
    }
  }

  /** Codes get longer, so a group takes at least as many codes as if all were as long as its first. */
  lemma {:induction false} CodesFill(w: nat, lens: seq<nat>, s: nat, k: nat)
    requires s < |Work(w, lens)| && s <= k <= |Work(w, lens)|
    ensures LenAt(w, lens, s) <= w && Start(w, lens, k) <= Start(w, lens, s) + Shl(k - s, w - LenAt(w, lens, s))
    decreases k
  {
    hide Canon, Shl, Pow2;
    LevelOf(w, lens, s);
    if s < k {
      var m := w - LenAt(w, lens, s);
      CodesFill(w, lens, s, k - 1);
      ShlAdd(k - 1 - s, 1, m);
      Pow2Shl(0, m);
      Ordered(w, lens, s, k - 1);
      LevelOf(w, lens, k - 1);
      Pow2Monotone(w - LenAt(w, lens, k - 1), m);
    }
  }

  /** From the first code of a group to one beyond it. */
  lemma GroupCodes(w: nat, lens: seq<nat>, root: nat, s: nat, k: nat)
    requires s < k <= |Work(w, lens)| && root < LenAt(w, lens, s) <= w && Start(w, lens, s) + Pow2(w - root) <= Start(w, lens, k)
    ensures s + Pow2(LenAt(w, lens, s) - root) <= k
  {
    hide Canon, Shl, Pow2, Start;
    var l := LenAt(w, lens, s);
    CodesFill(w, lens, s, k);
    Pow2Shl(l - root, w - l);
    ShlMonotone(k - s, Pow2(l - root), w - l);
  }

  /** The next group begins at least a whole group later. */
  lemma GroupsApart(w: nat, lens: seq<nat>, root: nat, s: nat, k: nat)
    requires s < k <= |Work(w, lens)| && root <= w && FirstInGroup(w, lens, root, s) && FirstInGroup(w, lens, root, k)
    ensures Start(w, lens, s) + Pow2(w - root) <= Start(w, lens, k)
  {
    hide Canon, Shl, Shr, Low, Pow2;
    var m, a, b := w - root, Start(w, lens, s), Start(w, lens, k);
    LevelOf(w, lens, s);
    StartMonotone(w, lens, s + 1, k);
    LowShr(a, m);
    LowShr(b, m);
    PowerPositive(w - LenAt(w, lens, s));
    ShlMonotone(Shr(a, m), Shr(b, m), m);
    ShlAdd(Shr(a, m), 1, m);
    Pow2Shl(0, m);
    ShlMonotone(Shr(b, m), Shr(a, m) + 1, m);
  }

  lemma PowerPositive(n: nat)
    ensures Pow2(n) > 0
  {
  }

  /** The next group has no shorter codes than the last sub-table has bits for. */
  lemma NextIsLonger(w: nat, lens: seq<nat>, root: nat, curr: nat, s: nat, k: nat)
    requires s < k < |Work(w, lens)| && NotWider(w, lens, root, curr, s) && Start(w, lens, s) + Pow2(w - root) <= Start(w, lens, k)
    ensures root + curr <= LenAt(w, lens, k)
  {
    hide Canon, Shl, Pow2, Start, Kraft;
    Ordered(w, lens, s, k);
    LevelOf(w, lens, k);
    var l := LenAt(w, lens, k);
    if l < root + curr {
      StartAfterLevel(w, lens, root + curr - 1);
      CanonPrefix(lens, l, root + curr - 1);
      StartMonotone(w, lens, k, |Canon(lens, root + curr - 1)|);
    }
  }

  /** What the tables so far take, when the current sub-table begins with code first. */
  ghost predicate Room(w: nat, lens: seq<nat>, root: nat, curr: nat, drop: nat, used: nat, first: nat, k: nat)
    requires root <= w
  {
    if drop == 0 then used == Pow2(root)
    else
      && first < k <= |Work(w, lens)| && root < LenAt(w, lens, first) && FirstInGroup(w, lens, root, first)
      && NotWider(w, lens, root, curr, first)
      && used <= Pow2(root) + first + Pow2(LenAt(w, lens, first) - root) + Pow2(curr)
  }

  lemma RoomStays(w: nat, lens: seq<nat>, root: nat, curr: nat, drop: nat, used: nat, first: nat, k: nat)
    requires root <= w && Room(w, lens, root, curr, drop, used, first, k) && k < |Work(w, lens)|
    ensures Room(w, lens, root, curr, drop, used, first, k + 1)
  {
  }

  /** Where a new sub-table begins, the codes so far pay for all sub-tables before. */
  lemma RoomPaid(w: nat, lens: seq<nat>, kind: CodeType, table: map<nat, Entry>, root: nat,
                 next: nat, curr: nat, drop: nat, low: int, used: nat, first: nat, k: nat)
    requires Input(w, lens, kind) && Built(w, lens, kind, table, root, next, curr, drop, low, k) && Room(w, lens, root, curr, drop, used, first, k)
    requires 0 < k < |Work(w, lens)| && LenAt(w, lens, k) > root && Low(Huff(w, lens, k), root) != low
    ensures FirstInGroup(w, lens, root, k)
    ensures used <= Pow2(root) + k + Pow2(LenAt(w, lens, k) - root)
    ensures drop != 0 ==> used <= Pow2(root) + k + Pow2(curr) && root + curr <= w
  {
    hide Canon, Start, Shl, Shr, Low, Rev, Pow2, Huff, Kraft, Good, SubShape, RootShape, FitsGroup, FirstInGroup, NotWider;
    if drop != 0 {
      GroupOf(w, lens, k - 1, root);
      GroupOf(w, lens, k, root);
    }
    GroupStart(w, lens, root, k);
    if drop != 0 {
      LevelOf(w, lens, first);
      GroupsApart(w, lens, root, first, k);
      GroupCodes(w, lens, root, first, k);
      NextIsLonger(w, lens, root, curr, first, k);
      Narrow(w, lens, root, curr, first);
      Pow2Monotone(curr, LenAt(w, lens, k) - root);
    }
  }

  lemma Narrow(w: nat, lens: seq<nat>, root: nat, curr: nat, k: nat)
    requires k < |Work(w, lens)| && NotWider(w, lens, root, curr, k)
    ensures root + curr <= w
  {
  }

  /** In a complete code, the group of a sub-table has all its codes. */
  lemma GroupComplete(w: nat, lens: seq<nat>, root: nat, k: nat)
    requires Kraft(w, lens, w) == Pow2(w) && k < |Work(w, lens)| && root < LenAt(w, lens, k) && FirstInGroup(w, lens, root, k)
    ensures LenAt(w, lens, k) <= w && k + Pow2(LenAt(w, lens, k) - root) <= |Work(w, lens)|
  {
    hide Canon, Start, Shl, Shr, Low, Pow2, Kraft;
    LevelOf(w, lens, k);
    StartAfterLevel(w, lens, w);
    Pow2Shl(root, w - root);
    ShlShr(Pow2(root), w - root);
    GroupsApart(w, lens, root, k, |Work(w, lens)|);
    GroupCodes(w, lens, root, k, |Work(w, lens)|);
  }

  /** There are at most as many codes as symbols. */
  lemma {:induction false} CodesBound(lens: seq<nat>, l: nat)
    ensures |Canon(lens, l)| <= |lens|
    ensures lens != [] ==> var n := |lens| - 1; |Canon(lens, l)| == |Canon(lens[..n], l)| + if 1 <= lens[n] <= l then 1 else 0
    decreases |lens|, l
  {
    if lens != [] {
      var n := |lens| - 1;
      CodesBound(lens[..n], l);
      if l > 0 {
        CodesBound(lens, l - 1);
      }
    } else if l > 0 {
      CodesBound(lens, l - 1);
    }
  }

  /** The offset of a sub-table fits sixteen bits. */
  lemma OffsetFits(w: nat, lens: seq<nat>, kind: CodeType, root: nat, curr: nat, drop: nat, used: nat, k: nat)
    requires w < 16 && Input(w, lens, kind) && k <= |Work(w, lens)| && 1 <= root <= w
    requires if drop == 0 then used == Pow2(root) else used <= Pow2(root) + k + Pow2(curr) && root + curr <= w
    ensures used < 65536
  {
    hide Canon, Pow2, Kraft;
    CodesBound(lens, w);
    Pow2Fits(root);
    if drop != 0 {
      Pow2Monotone(curr, 14);
      assert Pow2(14) == 16384 by {
        FourteenBits();
      }
    }
  }

  lemma FourteenBits()
    ensures Pow2(14) == 16384
  {
  }

  lemma StartAtZero(w: nat, lens: seq<nat>)
    ensures Huff(w, lens, 0) == 0
  {
    hide Canon;
    Rev0(w);
  }

  lemma {:induction false} Rev0(n: nat)
    ensures Rev(n, 0) == 0
  {
    if n > 0 {
      Rev0(n - 1);
    }
  }

  lemma EmptyTable()
    ensures RootShape(map[])
  {
  }

  lemma FirstCounts(w: nat, lens: seq<nat>, count: seq<nat>)
    requires |Work(w, lens)| > 0
    requires |count| == w + 1 && forall l {:trigger count[l]} :: 0 <= l <= w ==> count[l] == Count(lens, l)
    ensures CountsFrom(w, lens, count, 0)
  {
    hide Canon, SymsOf;
    var l := LenAt(w, lens, 0);
    LevelOf(w, lens, 0);
    CanonLength(lens, l);
  }

  lemma CountsInRange(w: nat, lens: seq<nat>, count: seq<nat>, k: nat)
    requires k < |Work(w, lens)| && CountsFrom(w, lens, count, k)
    ensures |count| == w + 1
  {
  }

  lemma CountsHere(w: nat, lens: seq<nat>, count: seq<nat>, k: nat)
    requires k < |Work(w, lens)| && CountsFrom(w, lens, count, k)
    ensures |count| == w + 1 && count[LenAt(w, lens, k)] == |Canon(lens, LenAt(w, lens, k))| - k
    ensures forall l {:trigger count[l]} :: LenAt(w, lens, k) < l <= w ==> count[l] == Count(lens, l)
  {
  }

  lemma CodeFitsTable(w: nat, lens: seq<nat>, kind: CodeType, table: map<nat, Entry>, root: nat,
                      next: nat, curr: nat, drop: nat, low: int, k: nat)
    requires Input(w, lens, kind) && Ready(w, lens, kind, table, root, next, curr, drop, low, k)
    ensures drop <= LenAt(w, lens, k) <= drop + curr
    ensures Shr(Huff(w, lens, k), drop) < Pow2(LenAt(w, lens, k) - drop)
  {
    hide Canon, Start, Low, Shr, Pow2, Huff;
    HuffHigh(w, lens, k, drop);
  }

  // ---------- which bits decode to something ----------

  /** The bits h begin with the code of symbol n. */
  ghost predicate BeginsWith(w: nat, lens: seq<nat>, h: nat, n: nat)
    requires LensOK(w, lens) && n < |lens|
  {
    lens[n] > 0 && Low(h, lens[n]) == CodeOf(w, lens, n)
  }

  /** Bits after the code make no difference. */
  lemma BeginsToo(w: nat, lens: seq<nat>, hold: nat, bits: nat, high: nat, s: nat)
    requires LensOK(w, lens) && s < |lens| && hold < Pow2(bits) && lens[s] <= bits
    ensures BeginsWith(w, lens, hold + Shl(high, bits), s) <==> BeginsWith(w, lens, hold, s)
  {
    hide Low, Shl, CodeOf;
    PartOfLow(hold, high, bits, lens[s]);
  }

  ghost predicate BeginsWithCode(w: nat, lens: seq<nat>, h: nat)
    requires LensOK(w, lens)
  {
    exists n: nat :: n < |lens| && BeginsWith(w, lens, h, n)
  }

  /** In a complete code, all bits begin with some code. */
  lemma CompleteCovers(w: nat, lens: seq<nat>, h: nat) returns (n: nat)
    requires LensOK(w, lens) && Kraft(w, lens, w) == Pow2(w)
    ensures n < |lens| && BeginsWith(w, lens, h, n)
  {
    hide Canon, Start, Low, Shr, Rev, Pow2, Kraft;
    var x := Rev(w, h);
    RevRev(w, h);
    StartAfterLevel(w, lens, w);
    var k := FindInterval(w, lens, x, |Work(w, lens)|);
    n := Work(w, lens)[k];
    var l := lens[n];
    PosOfWork(w, lens, k);
    StartStepAt(w, lens, k);
    Aligned(w, lens, k);
    SameShr(Start(w, lens, k), x, w - l);
    HuffOwnLength(w, lens, k);
    LowRev(w, x, l);
    LowLow(h, w, l);
  }

  lemma StartStepAt(w: nat, lens: seq<nat>, k: nat)
    requires k < |Work(w, lens)|
    ensures Start(w, lens, k + 1) == Start(w, lens, k) + Pow2(w - lens[Work(w, lens)[k]])
  {
  }

  lemma {:induction false} FindInterval(w: nat, lens: seq<nat>, x: nat, m: nat) returns (k: nat)
    requires m <= |Work(w, lens)| && x < Start(w, lens, m)
    ensures k < m && Start(w, lens, k) <= x < Start(w, lens, k + 1)
  {
    if m == 0 {
      assert false;
    } else if x < Start(w, lens, m - 1) {
      k := FindInterval(w, lens, x, m - 1);
    } else {
      k := m - 1;
    }
  }

  /** Numbers within one aligned interval agree on the high bits. */
  lemma SameShr(s: nat, x: nat, m: nat)
    requires s <= x < s + Pow2(m) && Low(s, m) == 0
    ensures Shr(x, m) == Shr(s, m)
  {
    hide Low, Shr, Shl, Pow2;
    LowShr(s, m);
    LowShr(x, m);
    ShrMonotone(s, x, m);
    ShlAdd(Shr(s, m), 1, m);
    Pow2Shl(0, m);
    ShlMonotone(Shr(x, m), Shr(s, m) + 1, m);
  }

  function MaxLen(lens: seq<nat>): nat {
    if lens == [] then 0
    else
      var m := MaxLen(lens[..|lens| - 1]);
      if lens[|lens| - 1] > m then lens[|lens| - 1] else m
  }

  /** What the routine rejects: over-subscribed lengths, and incomplete ones unless
      the only code is a single bit of a literal/length or distance code. */
  ghost predicate Rejected(w: nat, lens: seq<nat>, kind: CodeType) {
    var max := MaxLen(lens);
    && max > 0
    && (Kraft(w, lens, w) > Pow2(w) || (Kraft(w, lens, w) < Pow2(w) && (kind == CODES || max != 1)))
  }

  lemma {:induction false} MaxLenCounts(lens: seq<nat>)
    ensures forall l: nat :: l > MaxLen(lens) ==> Count(lens, l) == 0
    ensures MaxLen(lens) > 0 ==> Count(lens, MaxLen(lens)) > 0
  {
    if lens == [] {
      CountNone();
    } else {
      var n := |lens| - 1;
      MaxLenCounts(lens[..n]);
      CountStep(lens, n);
      assert lens[..n + 1] == lens;
      forall l: nat | l > MaxLen(lens) ensures Count(lens, l) == 0 {
        assert Count(lens[..n], l) == 0;
        assert Count(lens[..n + 1], l) == 0;
      }
    }
  }

  /** If the only length is one bit and a code is missing, there is a single code. */
  lemma SingleCode(w: nat, lens: seq<nat>)
    requires w >= 1 && MaxLen(lens) == 1 && Kraft(w, lens, w) < Pow2(w)
    ensures |Work(w, lens)| == 1 && LenAt(w, lens, 0) == 1 && Kraft(w, lens, w) == Pow2(w - 1)
    ensures Huff(w, lens, 0) == 0 && Huff(w, lens, 1) == 1
  {
    hide Canon, SymsOf, Count, Low, Shr, Rev, Shl;
    MaxLenCounts(lens);
    NoLonger(lens, 1, w);
    CanonLength(lens, 1);
    CanonNone(lens);
    KraftOne(w, lens, w);
    Pow2Shl(0, w - 1);
    Shl0(w - 1);
    ShlAdd(1, 1, w - 1);
    ShlMonotone(1, Count(lens, 1), w - 1);
    ShlMonotone(Count(lens, 1), 2, w - 1);
    LevelOf(w, lens, 0);
    LongestCode(w, lens, 1);
    StartAtZero(w, lens);
    StartAfterLevel(w, lens, w);
    RevPow2(w);
  }

  lemma {:induction false} KraftOne(w: nat, lens: seq<nat>, l: nat)
    requires 1 <= l <= w && forall m: nat :: m > 1 ==> Count(lens, m) == 0
    ensures Kraft(w, lens, l) == Shl(Count(lens, 1), w - 1)
  {
    hide Count, Shl;
    if l > 1 {
      KraftOne(w, lens, l - 1);
      Shl0(w - l);
    }
  }

  // ---------- which lengths are accepted ----------

  /** No bits begin with two codes. */
  ghost predicate Unambiguous(w: nat, lens: seq<nat>)
    requires LensOK(w, lens)
  {
    forall h: nat, m: nat, n: nat {:trigger BeginsWith(w, lens, h, m), BeginsWith(w, lens, h, n)} ::
      m < |lens| && n < |lens| && BeginsWith(w, lens, h, m) && BeginsWith(w, lens, h, n) ==> m == n
  }

  /** All bits begin with a code. */
  ghost predicate Exhaustive(w: nat, lens: seq<nat>)
    requires LensOK(w, lens)
  {
    forall h: nat {:trigger BeginsWithCode(w, lens, h)} :: BeginsWithCode(w, lens, h)
  }

  ghost predicate NoneCoded(lens: seq<nat>) {
    forall n {:trigger lens[n]} :: 0 <= n < |lens| ==> lens[n] == 0
  }

  /** Only symbol n has a code, of one bit. */
  ghost predicate OneBitCode(lens: seq<nat>, n: nat) {
    n < |lens| && lens[n] == 1 && forall m {:trigger lens[m]} :: 0 <= m < |lens| && m != n ==> lens[m] == 0
  }

  /** Lengths that a decoder can work with: those of no code at all, of a single code of one
      bit unless it is the code-length code, and of codes of which all bits begin with exactly one. */
  ghost predicate Acceptable(w: nat, lens: seq<nat>, kind: CodeType)
    requires LensOK(w, lens)
  {
    || NoneCoded(lens)
    || (kind != CODES && exists n :: OneBitCode(lens, n))
    || (Unambiguous(w, lens) && Exhaustive(w, lens))
  }

  /** The place where the code space is full, if it is over-used. */
  lemma {:induction false} FullAt(w: nat, lens: seq<nat>, m: nat) returns (k: nat)
    requires m <= |Work(w, lens)| && Start(w, lens, m) >= Pow2(w)
    ensures 1 <= k <= m && Start(w, lens, k) == Pow2(w)
  {
    hide Canon, Low, Shr, Shl, Pow2;
    assert m > 0 by {
      if m == 0 {
        NoStart(w, lens);
        PowerPositive(w);
      }
    }
    if Start(w, lens, m - 1) >= Pow2(w) {
      k := FullAt(w, lens, m - 1);
    } else {
      k := m;
      FilledExactly(w, lens, m);
    }
  }

  /** Intervals are aligned, so the code space is filled exactly before it is over-used. */
  lemma FilledExactly(w: nat, lens: seq<nat>, m: nat)
    requires 0 < m <= |Work(w, lens)| && Start(w, lens, m - 1) < Pow2(w) <= Start(w, lens, m)
    ensures Start(w, lens, m) == Pow2(w)
  {
    hide Canon, Start, Low, Shr, Shl, Pow2;
    var l := LenAt(w, lens, m - 1);
    LevelOf(w, lens, m - 1);
    StartStep(w, lens, l, m - 1);
    Aligned(w, lens, m - 1);
    var x, y := Start(w, lens, m - 1), Start(w, lens, m);
    StepInGroup(x, w - l, w);
    LowSmall(x, w);
    Pow2Monotone(w - l, w);
    LowShr(y, w);
    Shl0(w);
    LowBelow(y, w);
    Pow2Shl(0, w);
    ShlAdd(1, 1, w);
    ShlMonotone(Shr(y, w), 2, w);
    ShlMonotone(0, Shr(y, w), w);
  }

  lemma LowBelow(x: nat, n: nat)
    ensures Low(x, n) < Pow2(n)
  {
  }

  /** Of over-used lengths, two codes are the same where one is not longer than the other. */
  lemma Overlap(w: nat, lens: seq<nat>) returns (m: nat, n: nat)
    requires LensOK(w, lens) && Kraft(w, lens, w) > Pow2(w)
    ensures m < |lens| && n < |lens| && m != n && BeginsWith(w, lens, 0, m) && BeginsWith(w, lens, 0, n)
  {
    hide Canon, Start, Low, Shr, Shl, Pow2, Rev, Kraft;
    StartAfterLevel(w, lens, w);
    var k := FullAt(w, lens, |Work(w, lens)|);
    m, n := Work(w, lens)[0], Work(w, lens)[k];
    PosOfWork(w, lens, 0);
    PosOfWork(w, lens, k);
    LevelOf(w, lens, 0);
    LevelOf(w, lens, k);
    StartAtZero(w, lens);
    RevPow2(w);
    ZeroLow(lens[m]);
    ZeroLow(lens[n]);
  }

  /** Of lengths that leave code space, some bits begin with no code. */
  lemma Uncovered(w: nat, lens: seq<nat>)
    requires LensOK(w, lens) && Kraft(w, lens, w) < Pow2(w)
    ensures !BeginsWithCode(w, lens, Huff(w, lens, |Work(w, lens)|))
  {
    hide Canon, Start, Low, Shr, Shl, Pow2, Rev, Kraft;
    StartAfterLevel(w, lens, w);
    var s := Start(w, lens, |Work(w, lens)|);
    forall n: nat | n < |lens| ensures !BeginsWith(w, lens, Rev(w, s), n) {
      if lens[n] > 0 {
        WorkAtPos(w, lens, n);
        var k, l := Pos(lens, n), lens[n];
        var x := Start(w, lens, k);
        StartStepAt(w, lens, k);
        StartMonotone(w, lens, k + 1, |Work(w, lens)|);
        LowRev(w, s, l);
        HuffOwnLength(w, lens, k);
        AddPow2(x, w - l);
        ShrMonotone(x + Pow2(w - l), s, w - l);
        ShrBound(s, w, l);
        if Rev(l, Shr(s, w - l)) == Rev(l, Shr(x, w - l)) {
          RevInjective(l, Shr(s, w - l), Shr(x, w - l));
        }
      }
    }
  }

  lemma CompleteUnambiguous(w: nat, lens: seq<nat>)
    requires LensOK(w, lens) && NotOversubscribed(w, lens)
    ensures Unambiguous(w, lens)
  {
    hide Canon, Start, Low, Pow2, Kraft, Huff;
    forall h: nat, m: nat, n: nat | m < |lens| && n < |lens| && BeginsWith(w, lens, h, m) && BeginsWith(w, lens, h, n) ensures m == n {
      WorkAtPos(w, lens, m);
      WorkAtPos(w, lens, n);
      if Pos(lens, m) < Pos(lens, n) {
        NotBoth(w, lens, Pos(lens, m), Pos(lens, n), h);
      } else if Pos(lens, n) < Pos(lens, m) {
        NotBoth(w, lens, Pos(lens, n), Pos(lens, m), h);
      }
    }
  }

  /** A single one-bit code, said with the longest length and the code space. */
  lemma OneBitIs(w: nat, lens: seq<nat>)
    requires w >= 1 && LensOK(w, lens)
    ensures (exists n :: OneBitCode(lens, n)) <==> MaxLen(lens) == 1 && Kraft(w, lens, w) < Pow2(w)
  {
    hide Canon, SymsOf, Count, Shl, Kraft, Pow2;
    MaxLenBound(w, lens);
    if MaxLen(lens) == 1 && Kraft(w, lens, w) < Pow2(w) {
      SingleCode(w, lens);
      var n := Work(w, lens)[0];
      forall m | 0 <= m < |lens| && m != n ensures lens[m] == 0 {
        if lens[m] > 0 {
          WorkAtPos(w, lens, m);
        }
      }
      assert OneBitCode(lens, n);
    }
    if n :| OneBitCode(lens, n) {
      OneBitMax(lens, n);
      OneBitKraft(w, lens, n);
    }
  }

  lemma {:induction false} OneBitMax(lens: seq<nat>, n: nat)
    requires OneBitCode(lens, n)
    ensures MaxLen(lens) == 1 && Count(lens, 1) == 1
    decreases |lens|
  {
    var k := |lens| - 1;
    if n < k {
      OneBitMax(lens[..k], n);
    } else {
      NoneMax(lens[..k]);
    }
  }

  lemma {:induction false} NoneMax(lens: seq<nat>)
    requires NoneCoded(lens)
    ensures MaxLen(lens) == 0 && Count(lens, 1) == 0
    decreases |lens|
  {
    if lens != [] {
      NoneMax(lens[..|lens| - 1]);
    }
  }

  lemma OneBitKraft(w: nat, lens: seq<nat>, n: nat)
    requires w >= 1 && OneBitCode(lens, n)
    ensures Kraft(w, lens, w) < Pow2(w)
  {
    hide Count, Shl, Kraft;
    OneBitMax(lens, n);
    MaxLenCounts(lens);
    KraftOne(w, lens, w);
    Pow2Shl(0, w - 1);
  }

  /** What is rejected is what a decoder cannot work with. */
  lemma RejectedIff(w: nat, lens: seq<nat>, kind: CodeType)
    requires w >= 1 && LensOK(w, lens)
    ensures Rejected(w, lens, kind) <==> !Acceptable(w, lens, kind)
  {
    hide Canon, Kraft, Pow2, Unambiguous, Exhaustive, OneBitCode;
    MaxLenBound(w, lens);
    OneBitIs(w, lens);
    if NoneCoded(lens) {
      NoneMax(lens);
    } else if Kraft(w, lens, w) > Pow2(w) {
      OverUsed(w, lens);
    } else if Kraft(w, lens, w) < Pow2(w) {
      UnderUsed(w, lens);
    } else {
      CompleteUnambiguous(w, lens);
      NoOthers(w, lens);
      ExhaustiveIs(w, lens);
    }
  }

  lemma OverUsed(w: nat, lens: seq<nat>)
    requires LensOK(w, lens) && Kraft(w, lens, w) > Pow2(w)
    ensures !Unambiguous(w, lens)
  {
    hide BeginsWith, Kraft, Pow2;
    var m, n := Overlap(w, lens);
  }

  lemma UnderUsed(w: nat, lens: seq<nat>)
    requires LensOK(w, lens) && Kraft(w, lens, w) < Pow2(w)
    ensures !Exhaustive(w, lens)
  {
    hide BeginsWithCode, Kraft, Pow2, Huff;
    Uncovered(w, lens);
  }

  lemma ExhaustiveIs(w: nat, lens: seq<nat>)
    requires LensOK(w, lens) && forall h: nat :: BeginsWithCode(w, lens, h)
    ensures Exhaustive(w, lens)
  {
  }

  /** A bound for the space of a table: sub-tables take no more than an entry for each symbol
      and one more sub-table of the widest kind. */
  function SpaceFor(lens: seq<nat>, root: nat): nat {
    Pow2(root) + if MaxLen(lens) > root then |lens| + Pow2(MaxLen(lens) - root) else 0
  }

  /** A complete code of so few symbols has short codes, so the root is as wide as it should be. */
  lemma SpaceEnough(w: nat, lens: seq<nat>, bits: nat, root: nat)
    requires 1 <= w < 16 && LensOK(w, lens) && |Work(w, lens)| > 0 && (Kraft(w, lens, w) == Pow2(w) || MaxLen(lens) == 1)
    requires root == var r := if bits > MaxLen(lens) then MaxLen(lens) else bits; if r < LenAt(w, lens, 0) then LenAt(w, lens, 0) else r
    ensures |lens| <= 288 && bits == 9 ==> SpaceFor(lens, root) <= 864
    ensures |lens| <= 32 && bits == 6 ==> SpaceFor(lens, root) <= 608
  {
    hide Canon, Pow2, Low, Kraft, Start;
    MaxLenBound(w, lens);
    LevelOf(w, lens, 0);
    SmallPowers();
    var min := LenAt(w, lens, 0);
    if MaxLen(lens) > 1 {
      ZeroLow(w);
      NoStart(w, lens);
      GroupComplete(w, lens, 0, 0);
      CodesBound(lens, w);
      if min > 8 {
        Pow2Monotone(9, min);
      }
      if min > 5 {
        Pow2Monotone(6, min);
      }
    }
    if root <= 9 {
      Pow2Monotone(root, 9);
    }
    if root <= 6 {
      Pow2Monotone(root, 6);
    }
    if root == 9 && MaxLen(lens) > root {
      Pow2Monotone(MaxLen(lens) - root, 6);
    }
    if root == 6 && MaxLen(lens) > root {
      Pow2Monotone(MaxLen(lens) - root, 9);
    }
  }

  lemma SmallPowers()
    ensures Pow2(1) == 2 && Pow2(6) == 64 && Pow2(9) == 512
  {
  }

  lemma NoStart(w: nat, lens: seq<nat>)
    ensures Start(w, lens, 0) == 0
  {
  }

  /** The length of the longest code. */
  method LongestIn(w: nat, lens: seq<nat>, count: seq<nat>) returns (max: nat)
    requires LensOK(w, lens) && |count| == w + 1 && forall l {:trigger count[l]} :: 0 <= l <= w ==> count[l] == Count(lens, l)
    ensures max == MaxLen(lens) && Longest(w, lens, max)
  {
    hide SymsOf;
    MaxLenCounts(lens);
    MaxLenBound(w, lens);
    max := w;
    while max >= 1 && count[max] == 0
      invariant 0 <= max <= w && MaxLen(lens) <= max
    {
      assert Count(lens, max) == 0;
      max := max - 1;
    }
  }

  /** The length of the shortest code, if there is one. */
  method ShortestIn(w: nat, lens: seq<nat>, count: seq<nat>, max: nat) returns (min: nat)
    requires LensOK(w, lens) && |count| == w + 1 && forall l {:trigger count[l]} :: 0 <= l <= w ==> count[l] == Count(lens, l)
    requires Longest(w, lens, max) && max >= 1
    ensures 1 <= min <= max && |Work(w, lens)| > 0 && min == LenAt(w, lens, 0)
  {
    hide SymsOf, Canon, Count;
    min := 1;
    while min <= w && count[min] == 0
      invariant 1 <= min <= max && forall l {:trigger Count(lens, l)} :: 1 <= l < min ==> Count(lens, l) == 0
    {
      min := min + 1;
    }
    ShortestCode(w, lens, min);
  }

  /** Builds the tables for a code that has codes and is complete, or a single code of one bit. */
  method FillTable(w: nat, kind: CodeType, lens: seq<nat>, count: seq<nat>, root: nat, min: nat, max: nat, left: nat)
    returns (ret: int, table: map<nat, Entry>, used: nat)
    requires 1 <= w < 16 && Input(w, lens, kind) && |count| == w + 1 && forall l {:trigger count[l]} :: 0 <= l <= w ==> count[l] == Count(lens, l)
    requires |Work(w, lens)| > 0 && Longest(w, lens, max) && max == MaxLen(lens) && 1 <= min <= root <= max && min == LenAt(w, lens, 0)
    requires Kraft(w, lens, w) + left == Pow2(w) && (left == 0 || (max == 1 && kind != CODES))
    ensures ret == 0 || (ret == 1 && kind == LENS)
    ensures ret == 0 ==> Within(table, root, used) && PointersAtRoot(table, root) && (max <= root ==> RootShape(table))
    ensures used <= SpaceFor(lens, root) && (kind == LENS ==> (ret == 1 <==> used >= ENOUGH - MAXD))
    ensures ret == 0 ==> forall n: nat, h: nat {:trigger BeginsWith(w, lens, h, n)} ::
              n < |lens| && BeginsWith(w, lens, h, n) ==> Decodes(table, root, h, kind, n, lens[n])
    ensures ret == 0 ==> forall h: nat {:trigger Lookup(table, root, h)} ::
              !BeginsWithCode(w, lens, h) ==> Lookup(table, root, h) == (Entry(64, 1, 0), 1)
  {
    hide Canon, SymsOf, Count, Start, Low, Shr, Rev, Pow2, Leaf, Good, Lookup, Kraft, Huff, RootShape, PointersAtRoot, BeginsWith, Decodes, CodeOf, Within;
    var work := SortSymbols(w, lens, count);
    CodesBound(lens, w);
    var huff, len, next, drop, low;
    ret, table, used, huff, len, next, drop, low := EnterCodes(w, kind, lens, work, count, root, min, max);
    if ret != 0 {
      return;
    }
    if left > 0 {
      SingleCode(w, lens);
    } else {
      CompleteEnds(w, lens);
    }
    LongestCode(w, lens, max);
    table := FillRest(w, kind, lens, table, root, huff, len, next, drop, low);
    GoodSymbols(w, lens, kind, table, root);
    if left > 0 {
      OthersInvalid(w, lens, table);
    } else {
      NoOthers(w, lens);
    }
  }

  /** Builds the decoding tables for a code given by its lengths. w is MAXBITS. */
  method Build(w: nat, kind: CodeType, lens: seq<nat>, bits: nat)
    returns (ret: int, table: map<nat, Entry>, root: nat, used: nat)
    requires 1 <= w < 16 && LensOK(w, lens) && |lens| <= MaxSymbols(kind)
    // exactly the lengths that a decoder cannot work with are rejected: code space over-used or left
    ensures ret == -1 <==> Rejected(w, lens, kind)
    ensures ret == -1 <==> !Acceptable(w, lens, kind)
    ensures ret == 0 || ret == -1 || (ret == 1 && kind == LENS)
    // the space that is used, and that decoding looks at, is within what there is
    ensures ret == 0 ==> Within(table, root, used) && (kind == LENS ==> used < ENOUGH - MAXD)
    ensures ret == 1 ==> used >= ENOUGH - MAXD
    ensures ret != -1 ==> used <= SpaceFor(lens, root)
    ensures kind == LENS && bits == 9 ==> ret != 1 && used <= 864
    ensures kind == DISTS && bits == 6 && ret == 0 ==> used <= 608
    // the root table alone is enough when it is wide enough for the longest code
    ensures ret == 0 && MaxLen(lens) <= bits ==> RootShape(table)
    ensures ret == 0 ==> PointersAtRoot(table, root)
    // bits that begin with a code decode to its symbol and use up the code
    ensures ret == 0 ==> forall n: nat, h: nat {:trigger BeginsWith(w, lens, h, n)} ::
              n < |lens| && BeginsWith(w, lens, h, n) ==> Decodes(table, root, h, kind, n, lens[n])
    // all other bits are marked invalid
    ensures ret == 0 ==> forall h: nat {:trigger Lookup(table, root, h)} ::
              !BeginsWithCode(w, lens, h) ==> Lookup(table, root, h) == (Entry(64, 1, 0), 1)
  {
    hide Canon, SymsOf, Count, Start, Low, Shr, Rev, Pow2, Leaf, Good, Lookup, Kraft, Huff, RootShape, PointersAtRoot, BeginsWith, Decodes, CodeOf, Within, Acceptable;
    RejectedIff(w, lens, kind);
    var count := CountLengths(w, lens);
    root := bits;
    var max := LongestIn(w, lens, count);
    if root > max {
      root := max;
    }
    if max == 0 {
      NoCodes(w, lens);
      SmallPowers();
      table := map[0 := Entry(64, 1, 0), 1 := Entry(64, 1, 0)];
      InvalidTable(table);
      return 0, table, 1, 2;
    }
    var min := ShortestIn(w, lens, count, max);
    if root < min {
      root := min;
    }
    var left := CodesLeft(w, lens, count);
    if left < 0 {
      return -1, map[], root, 0;
    }
    if left > 0 && (kind == CODES || max != 1) {
      return -1, map[], root, 0;
    }
    SpaceEnough(w, lens, bits, root);
    ret, table, used := FillTable(w, kind, lens, count, root, min, max, left);
  }

  /** Fills in the rest of the table with invalid code markers. */
  method FillRest(w: nat, kind: CodeType, lens: seq<nat>, table0: map<nat, Entry>, root: nat,
                  huff0: nat, len0: nat, next0: nat, drop0: nat, low: int) returns (table: map<nat, Entry>)
    requires Input(w, lens, kind) && |Work(w, lens)| > 0 && drop0 <= len0
    requires forall j: nat {:trigger Good(w, lens, kind, table0, root, j)} ::
               j < |Work(w, lens)| ==> Good(w, lens, kind, table0, root, j)
    requires huff0 != 0 ==> huff0 == len0 == root == |Work(w, lens)| == LenAt(w, lens, 0) == 1 && Huff(w, lens, 0) == 0
                            && drop0 == 0 && next0 == 0 && RootShape(table0)
    ensures forall j: nat {:trigger Good(w, lens, kind, table, root, j)} ::
              j < |Work(w, lens)| ==> Good(w, lens, kind, table, root, j)
    ensures huff0 != 0 ==> root == 1 && Get(table, 1) == Entry(64, 1, 0)
    ensures RootShape(table0) ==> RootShape(table)
    ensures PointersAtRoot(table0, root) ==> PointersAtRoot(table, root)
    ensures forall n: nat {:trigger Within(table, root, n)} :: Within(table0, root, n) ==> Within(table, root, n)
  {
    hide Canon, SymsOf, Low, Shr, Pow2, Good, Huff, RootShape, PointersAtRoot, BackIncrement, Within;
    table := table0;
    var huff := huff0;
    var len, next, drop := len0, next0, drop0;
    var bits := len - drop;
    while huff != 0
      invariant huff != 0 ==> huff == len == 1 && drop == 0 && next == 0 && bits == 1 && table == table0 && huff0 != 0
      invariant forall j: nat {:trigger Good(w, lens, kind, table, root, j)} ::
                  j < |Work(w, lens)| ==> Good(w, lens, kind, table, root, j)
      invariant huff == 0 && huff0 != 0 ==> Get(table, 1) == Entry(64, 1, 0)
      invariant RootShape(table0) ==> RootShape(table)
      invariant PointersAtRoot(table0, root) ==> PointersAtRoot(table, root)
      invariant forall n: nat {:trigger Within(table, root, n)} :: Within(table0, root, n) ==> Within(table, root, n)
      decreases huff
    {
      if drop != 0 && Low(huff, root) != low {
        // the drop back to the root table: an incomplete code has no sub-tables
        assert false;
      }
      ShrNone(huff);
      MarkerShape(table, next + Shr(huff, drop), bits);
      MarkerWithin(table, bits);
      table := table[next + Shr(huff, drop) := Entry(64, bits, 0)];
      MarkerKeeps(w, lens, kind, table0, root);
      IncrementOne();
      huff := Increment(len, huff);
    }
  }

  /** With a root table of one bit there are always two addresses. */
  lemma MarkerWithin(table: map<nat, Entry>, bits: nat)
    ensures forall n: nat :: Within(table, 1, n) ==> Within(table[1 := Entry(64, bits, 0)], 1, n)
  {
    var table' := table[1 := Entry(64, bits, 0)];
    assert Low(1, 1) == 1 % 2 + 2 * Low(0, 0);
    assert forall i: nat {:trigger Get(table', i)} :: Pointer(Get(table', i)) ==> Get(table', i) == Get(table, i);
    forall n: nat | Within(table, 1, n) ensures Within(table', 1, n) {
      assert Low(1, 1) < n;
    }
  }

  lemma MarkerShape(table: map<nat, Entry>, a: nat, bits: nat)
    ensures RootShape(table) ==> RootShape(table[a := Entry(64, bits, 0)])
    ensures forall root: nat :: PointersAtRoot(table, root) ==> PointersAtRoot(table[a := Entry(64, bits, 0)], root)
  {
    var table' := table[a := Entry(64, bits, 0)];
    assert forall i: nat {:trigger Get(table', i)} :: Pointer(Get(table', i)) ==> Get(table', i) == Get(table, i);
    if RootShape(table) {
      forall i: nat ensures !Pointer(Get(table', i)) {
        assert !Pointer(Get(table, i));
      }
    }
  }

  lemma IncrementOne()
    ensures 1 < Pow2(1) && BackIncrement(1, 1) == 0
  {
    assert Pow2(1) == 2 * Pow2(0);
    assert Shr(1, 0) == 1;
  }

  lemma MarkerKeeps(w: nat, lens: seq<nat>, kind: CodeType, table: map<nat, Entry>, root: nat)
    requires Input(w, lens, kind) && root == |Work(w, lens)| == 1
    requires LenAt(w, lens, 0) == 1 && Huff(w, lens, 0) == 0
    requires RootShape(table) && Good(w, lens, kind, table, root, 0)
    ensures Good(w, lens, kind, table[1 := Entry(64, 1, 0)], root, 0)
  {
    hide Canon, SymsOf, Low, Huff, Leaf, Kraft;
    var table' := table[1 := Entry(64, 1, 0)];
    forall h: nat | Low(h, 1) == 0 ensures Decodes(table', root, h, kind, Work(w, lens)[0], 1) {
      assert Decodes(table, root, h, kind, Work(w, lens)[0], 1);
      assert Get(table', 0) == Get(table, 0);
    }
  }

  /** In a complete code the code after the last one is 0 again. */
  lemma CompleteEnds(w: nat, lens: seq<nat>)
    requires Kraft(w, lens, w) == Pow2(w)
    ensures Huff(w, lens, |Work(w, lens)|) == 0
  {
    hide Canon, Rev, Pow2;
    StartAfterLevel(w, lens, w);
    RevPow2(w);
  }

  lemma GoodSymbols(w: nat, lens: seq<nat>, kind: CodeType, table: map<nat, Entry>, root: nat)
    requires Input(w, lens, kind)
    requires forall j: nat {:trigger Good(w, lens, kind, table, root, j)} ::
               j < |Work(w, lens)| ==> Good(w, lens, kind, table, root, j)
    ensures forall n: nat, h: nat {:trigger BeginsWith(w, lens, h, n)} ::
              n < |lens| && BeginsWith(w, lens, h, n) ==> Decodes(table, root, h, kind, n, lens[n])
  {
    hide Canon, SymsOf, Low, Huff, Leaf, Kraft, Lookup;
    forall n: nat, h: nat | n < |lens| && BeginsWith(w, lens, h, n)
      ensures Decodes(table, root, h, kind, n, lens[n])
    {
      WorkAtPos(w, lens, n);
      var k := Pos(lens, n);
      assert Good(w, lens, kind, table, root, k);
      assert Low(h, LenAt(w, lens, k)) == Huff(w, lens, k);
    }
  }

  lemma NoOthers(w: nat, lens: seq<nat>)
    requires LensOK(w, lens) && Kraft(w, lens, w) == Pow2(w)
    ensures forall h: nat :: BeginsWithCode(w, lens, h)
  {
    hide BeginsWith, Kraft, Pow2;
    forall h: nat ensures BeginsWithCode(w, lens, h) {
      var n := CompleteCovers(w, lens, h);
    }
  }

  /** With a single one-bit code, bits that do not begin with it find the marker. */
  lemma OthersInvalid(w: nat, lens: seq<nat>, table: map<nat, Entry>)
    requires LensOK(w, lens) && |Work(w, lens)| == 1 && LenAt(w, lens, 0) == 1 && Huff(w, lens, 0) == 0
    requires Get(table, 1) == Entry(64, 1, 0)
    ensures forall h: nat {:trigger Lookup(table, 1, h)} ::
              !BeginsWithCode(w, lens, h) ==> Lookup(table, 1, h) == (Entry(64, 1, 0), 1)
  {
    hide Canon, SymsOf, Start, Kraft, Huff;
    var n := Work(w, lens)[0];
    PosOfWork(w, lens, 0);
    forall h: nat | !BeginsWithCode(w, lens, h) ensures Lookup(table, 1, h) == (Entry(64, 1, 0), 1) {
      assert !BeginsWith(w, lens, h, n);
      assert Low(h, 1) == h % 2 + 2 * Low(h / 2, 0);
    }
  }

  lemma {:induction false} MaxLenBound(w: nat, lens: seq<nat>)
    requires LensOK(w, lens)
    ensures MaxLen(lens) <= w && forall n {:trigger lens[n]} :: 0 <= n < |lens| ==> lens[n] <= MaxLen(lens)
  {
    if lens != [] {
      MaxLenBound(w, lens[..|lens| - 1]);
      assert forall n :: 0 <= n < |lens| - 1 ==> lens[..|lens| - 1][n] == lens[n];
    }
  }

  lemma NoCodes(w: nat, lens: seq<nat>)
    requires LensOK(w, lens) && MaxLen(lens) == 0
    ensures forall h: nat :: !BeginsWithCode(w, lens, h)
    ensures forall h: nat, n: nat :: n < |lens| ==> !BeginsWith(w, lens, h, n)
  {
    MaxLenBound(w, lens);
  }

  lemma InvalidTable(table: map<nat, Entry>)
    requires table == map[0 := Entry(64, 1, 0), 1 := Entry(64, 1, 0)]
    ensures forall h: nat :: Lookup(table, 1, h) == (Entry(64, 1, 0), 1)
    ensures RootShape(table) && PointersAtRoot(table, 1) && Within(table, 1, 2)
  {
    forall h: nat ensures Lookup(table, 1, h) == (Entry(64, 1, 0), 1) {
      assert Low(h, 1) == h % 2 + 2 * Low(h / 2, 0);
    }
  }

  lemma ShortestCode(w: nat, lens: seq<nat>, min: nat)
    requires 1 <= min <= w && Count(lens, min) > 0
    requires forall l {:trigger Count(lens, l)} :: 1 <= l < min ==> Count(lens, l) == 0
    ensures |Work(w, lens)| > 0 && LenAt(w, lens, 0) == min
  {
    hide Canon, SymsOf, Count;
    NoLonger(lens, 0, min - 1);
    CanonNone(lens);
    CanonLength(lens, min);
    CanonLevel(w, lens, min, 0);
  }

  /** A code as the encoder sends it, followed by any bits, begins with that code. */
  lemma SentBeginsWith(w: nat, lens: seq<nat>, n: nat, rest: nat)
    requires LensOK(w, lens) && n < |lens| && lens[n] > 0
    ensures BeginsWith(w, lens, CodeOf(w, lens, n) + Shl(rest, lens[n]), n)
  {
    hide Canon, SymsOf, Low, Shl, Huff, Kraft;
    WorkAtPos(w, lens, n);
    HuffBound(w, lens, Pos(lens, n));
    LowAddShl(CodeOf(w, lens, n), rest, lens[n]);
  }
}
