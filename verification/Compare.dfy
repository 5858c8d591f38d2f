/** The ordering of data-graph nodes that the minimizer sorts by. */
module Compare {
  import opened Heap

  function Sign(x: int, y: int): int {
    if x < y then -1 else if x > y then 1 else 0
  }

  function CompareLabels(vl: nat, wl: nat): int {
    if vl == wl then 0
    else if vl == CHUNK_LABEL then -1
    else if wl == CHUNK_LABEL then 1
    else if vl < wl then -1
    else 1
  }

  /** Two fields: integers by value, and every integer before every pointer. */
  function CompareField(x: Word, y: Word): int {
    if x.Int? && y.Int? then Sign(x.i, y.i)
    else if x.Ptr? && y.Int? then 1
    else if x.Int? && y.Ptr? then -1
    else 0
  }

  /** The integer children below index k, the highest index deciding first. */
  function CompareChildren(v: seq<Word>, w: seq<Word>, k: nat): int
    requires k <= |v| && k <= |w|
  {
    if k == 0 then 0
    else
      var c := CompareField(v[k - 1], w[k - 1]);
      if c != 0 then c else CompareChildren(v, w, k - 1)
  }

  /** The first differing byte from index i on decides, as memcmp does. */
  function CompareBytes(v: seq<nat>, w: seq<nat>, i: nat): int
    requires |v| == |w| && i <= |v|
    decreases |v| - i
  {
    if i == |v| then 0
    else if v[i] != w[i] then Sign(v[i], w[i])
    else CompareBytes(v, w, i + 1)
  }

  function CompareChunks(v: seq<nat>, w: seq<nat>): int {
    if |v| != |w| then Sign(|v|, |w|) else CompareBytes(v, w, 0)
  }

  function CompareFields(v: seq<Word>, w: seq<Word>): int {
    if |v| != |w| then Sign(|v|, |w|) else CompareChildren(v, w, |v|)
  }

  predicate Incomparable(tag: nat) {
    tag in {GENSET_LABEL, INT_MAP_LABEL, CHUNK_MAP_LABEL, MAP_LABEL, HASHNODEARRAY_LABEL,
              HASHNODE_LABEL, QUEUE_LABEL, STACK_LABEL, ROOTSETELEMENT_LABEL, THREAD_LABEL,
              TASKSTACK_LABEL, ARGS_LABEL, IODESC_LABEL, HOLE_LABEL, FUTURE_LABEL, REF_LABEL,
              CANCELLED_LABEL, BYNEED_LABEL, WEAK_MAP_LABEL, UNIQUESTRING_LABEL, CONCRETE_LABEL}
  }

  predicate AlwaysStructural(tag: nat) {
    tag in {CLOSURE_LABEL, TUPLE_LABEL, TRANSFORM_LABEL}
  }

  /** Whether a block is compared by address, so that it shares its class with no other. */
  predicate ByIdentity(b: Block) {
    Incomparable(b.GetLabel()) || (!AlwaysStructural(b.GetLabel()) && b.mutable)
  }

  function CompareContents(v: Block, w: Block): int {
    if v.Chunk? && w.Chunk? then CompareChunks(v.bytes, w.bytes)
    else CompareFields(v.Fields(), w.Fields())
  }

  /** Two distinct blocks of the same label; the mutability of the first alone decides how. */
  function CompareBlocks(v: Block, va: Addr, w: Block, wa: Addr): int {
    if ByIdentity(v) then (if va < wa then -1 else 1)
    else CompareContents(v, w)
  }

  function CompareNodes(s: Store, va: Addr, wa: Addr): int
    requires va in s && wa in s
  {
    if va == wa then 0
    else
      var c := CompareLabels(s[va].GetLabel(), s[wa].GetLabel());
      if c != 0 then c else CompareBlocks(s[va], va, s[wa], wa)
  }

  // ---------- the order ----------

  /** A mutable and an immutable block of one label that is neither always nor never compared by contents. */
  predicate MixedPair(s: Store, a: Addr, b: Addr) {
    && a in s && b in s
    && s[a].GetLabel() == s[b].GetLabel()
    && !Incomparable(s[a].GetLabel()) && !AlwaysStructural(s[a].GetLabel())
    && s[a].mutable && !s[b].mutable
  }

  /** No label that is compared by contents or by address, depending on mutability, has both. */
  ghost predicate Unmixed(s: Store) {
    forall a: Addr, b: Addr :: !MixedPair(s, a, b)
  }

  /** Without mixed pairs the label decides how a block is compared. */
  lemma SameKind(s: Store, a: Addr, b: Addr)
    requires Unmixed(s) && a in s && b in s && s[a].GetLabel() == s[b].GetLabel()
    ensures ByIdentity(s[a]) == ByIdentity(s[b])
    ensures Incomparable(s[a].GetLabel()) || AlwaysStructural(s[a].GetLabel()) || s[a].mutable == s[b].mutable
  {
    assert !MixedPair(s, a, b) && !MixedPair(s, b, a);
  }

  lemma {:induction false} ChildrenOrder(u: seq<Word>, v: seq<Word>, w: seq<Word>, k: nat)
    requires k <= |u| && k <= |v| && k <= |w|
    ensures CompareChildren(u, v, k) == -CompareChildren(v, u, k)
    ensures CompareChildren(u, v, k) <= 0 && CompareChildren(v, w, k) <= 0 ==> CompareChildren(u, w, k) <= 0
    ensures -1 <= CompareChildren(u, v, k) <= 1
  {
    if k > 0 {
      ChildrenOrder(u, v, w, k - 1);
    }
  }

  lemma {:induction false} BytesOrder(u: seq<nat>, v: seq<nat>, w: seq<nat>, i: nat)
    requires |u| == |v| == |w| && i <= |u|
    ensures CompareBytes(u, v, i) == -CompareBytes(v, u, i)
    ensures CompareBytes(u, v, i) <= 0 && CompareBytes(v, w, i) <= 0 ==> CompareBytes(u, w, i) <= 0
    ensures -1 <= CompareBytes(u, v, i) <= 1
    decreases |u| - i
  {
    if i < |u| {
      BytesOrder(u, v, w, i + 1);
    }
  }

  lemma ContentsOrder(u: Block, v: Block, w: Block)
    requires u.Chunk? == v.Chunk? == w.Chunk?
    ensures CompareContents(u, v) == -CompareContents(v, u)
    ensures CompareContents(u, v) <= 0 && CompareContents(v, w) <= 0 ==> CompareContents(u, w) <= 0
    ensures -1 <= CompareContents(u, v) <= 1
  {
    if u.Chunk? {
      if |u.bytes| == |v.bytes| {
        BytesOrder(u.bytes, v.bytes, if |w.bytes| == |u.bytes| then w.bytes else u.bytes, 0);
      }
    } else if |u.args| == |v.args| {
      ChildrenOrder(u.args, v.args, if |w.args| == |u.args| then w.args else u.args, |u.args|);
    }
  }

  /** compare is a total preorder on the nodes of a store without mixed pairs. */
  lemma TotalPreorder(s: Store, a: Addr, b: Addr, c: Addr)
    requires Closed(s) && Unmixed(s)
    requires a in s && b in s && c in s
    ensures CompareNodes(s, a, b) == -CompareNodes(s, b, a)
    ensures CompareNodes(s, a, b) <= 0 && CompareNodes(s, b, c) <= 0 ==> CompareNodes(s, a, c) <= 0
    ensures CompareNodes(s, a, a) == 0
    ensures -1 <= CompareNodes(s, a, b) <= 1
  {
    if s[a].GetLabel() == s[b].GetLabel() {
      SameKind(s, a, b);
      if s[b].GetLabel() == s[c].GetLabel() {
        SameKind(s, b, c);
        ContentsOrder(s[a], s[b], s[c]);
        ContentsOrder(s[b], s[c], s[a]);
      } else {
        ContentsOrder(s[a], s[b], s[a]);
      }
    }
  }

  // ---------- what compare-equal nodes share ----------

  lemma {:induction false} ChildrenEqual(v: seq<Word>, w: seq<Word>, k: nat)
    requires k <= |v| && k <= |w|
    ensures CompareChildren(v, w, k) == 0 <==>
              forall i :: 0 <= i < k ==> v[i].Int? == w[i].Int? && (v[i].Int? ==> v[i].i == w[i].i)
  {
    if k > 0 {
      ChildrenEqual(v, w, k - 1);
    }
  }

  lemma {:induction false} BytesEqual(v: seq<nat>, w: seq<nat>, i: nat)
    requires |v| == |w| && i <= |v|
    ensures CompareBytes(v, w, i) == 0 <==> v[i..] == w[i..]
    decreases |v| - i
  {
    if i < |v| {
      BytesEqual(v, w, i + 1);
      assert v[i..] == [v[i]] + v[i + 1..];
      assert w[i..] == [w[i]] + w[i + 1..];
    }
  }

  datatype Shape = IntField(i: int) | Pointer

  /** All that can be seen of one node without following a pointer. A node that is
      compared by address is also seen as itself; whether it is mutable is not seen of
      a node whose label is always compared by contents. */
  datatype Observation = Observation(tag: nat, mutable: bool, shapes: seq<Shape>, bytes: seq<nat>, identity: seq<Addr>)

  function Shapes(args: seq<Word>): (r: seq<Shape>) {
    seq(|args|, k requires 0 <= k < |args| => if args[k].Int? then IntField(args[k].i) else Pointer)
  }

  function Observe(s: Store, a: Addr): Observation
    requires a in s
  {
    Observation(s[a].GetLabel(), s[a].mutable && !AlwaysStructural(s[a].GetLabel()), Shapes(s[a].Fields()),
                if s[a].Chunk? then s[a].bytes else [], if ByIdentity(s[a]) then [a] else [])
  }

  lemma ContentsEqual(v: Block, w: Block)
    requires v.Chunk? == w.Chunk?
    ensures CompareContents(v, w) == 0 <==>
              Shapes(v.Fields()) == Shapes(w.Fields()) && (v.Chunk? ==> v.bytes == w.bytes)
  {
    if v.Chunk? {
      if |v.bytes| == |w.bytes| {
        BytesEqual(v.bytes, w.bytes, 0);
        assert v.bytes[0..] == v.bytes && w.bytes[0..] == w.bytes;
      }
    } else if |v.args| == |w.args| {
      ChildrenEqual(v.args, w.args, |v.args|);
      var p, q := Shapes(v.args), Shapes(w.args);
      if p == q {
        forall i | 0 <= i < |v.args|
          ensures v.args[i].Int? == w.args[i].Int? && (v.args[i].Int? ==> v.args[i].i == w.args[i].i)
        {
          assert p[i] == q[i];
        }
      }
    } else {
      assert |Shapes(v.args)| != |Shapes(w.args)|;
    }
  }

  /** Nodes compare equal exactly when they look the same. */
  lemma EqualIffSameObservation(s: Store, a: Addr, b: Addr)
    requires Closed(s) && Unmixed(s)
    requires a in s && b in s
    ensures CompareNodes(s, a, b) == 0 <==> Observe(s, a) == Observe(s, b)
  {
    if a != b && s[a].GetLabel() == s[b].GetLabel() {
      SameKind(s, a, b);
      ContentsEqual(s[a], s[b]);
    }
  }

  // ---------- with mixed pairs ----------

  /** compare is antisymmetric exactly when every mixed pair is ordered by
      contents the way its addresses are. */
  lemma AntisymmetricIff(s: Store)
    requires Closed(s)
    ensures (forall a, b :: a in s && b in s ==> CompareNodes(s, a, b) == -CompareNodes(s, b, a)) <==>
            (forall a: Addr, b: Addr :: MixedPair(s, a, b) ==> CompareContents(s[b], s[a]) == Sign(b, a))
  {
    forall a, b | a in s && b in s
      ensures !MixedPair(s, a, b) && !MixedPair(s, b, a) ==> CompareNodes(s, a, b) == -CompareNodes(s, b, a)
      ensures MixedPair(s, a, b) ==>
                (CompareNodes(s, a, b) == -CompareNodes(s, b, a) <==> CompareContents(s[b], s[a]) == Sign(b, a))
    {
      if s[a].GetLabel() == s[b].GetLabel() {
        ContentsOrder(s[a], s[b], s[a]);
      }
    }
  }

  /** Two blocks that differ only in mutability compare as unequal one way and equal the other. */
  lemma MixedMutabilityBreaksOrder()
    ensures var s: Store := map[1 := Block(0, true, [Int(7)]), 2 := Block(0, false, [Int(7)])];
            Closed(s) && CompareNodes(s, 1, 2) == -1 && CompareNodes(s, 2, 1) == 0
  {
    var s: Store := map[1 := Block(0, true, [Int(7)]), 2 := Block(0, false, [Int(7)])];
    ChildrenEqual(s[2].args, s[1].args, 1);
  }

  /** The scan of the children, last index first. */
  method ScanChildren(v: seq<Word>, w: seq<Word>) returns (c: int)
    requires |v| == |w|
    ensures c == CompareFields(v, w)
  {
    var i := |v|;
    while i != 0
      invariant 0 <= i <= |v|
      invariant CompareChildren(v, w, |v|) == CompareChildren(v, w, i)
    {
      i := i - 1;
      if v[i].Int? && w[i].Int? {
        if v[i].i < w[i].i {
          return -1;
        } else if v[i].i > w[i].i {
          return 1;
        }
      } else if v[i].Ptr? && w[i].Int? {
        return 1;
      } else if v[i].Int? && w[i].Ptr? {
        return -1;
      }
    }
    return 0;
  }
}
