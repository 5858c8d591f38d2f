/** What minimizing promises about data, said without the comparison that finds it: which
    blocks may be shared follows from their labels as the store numbers them and from
    their mutability. */
module SharedData {
  import opened Wrappers
  import opened Heap
  import opened Compare
  import opened Reduction

  /** The label is one of genset, the maps, the hash tables, queue, stack, root set element,
      unique string, thread and task stack; concrete; args and I/O descriptor; a transient
      or reference; weak map. */
  predicate KeepsAddress(l: nat) {
    101 <= l <= 112 || l == 115 || 117 <= l <= 118 || 120 <= l <= 124 || l == 126
  }

  /** The label is closure, tuple or transform. */
  predicate AlwaysShared(l: nat) {
    l == 113 || l == 114 || l == 116
  }

  /** The block may be replaced by another one that holds the same. */
  predicate Shareable(b: Block) {
    AlwaysShared(b.GetLabel()) || (!KeepsAddress(b.GetLabel()) && !b.mutable)
  }

  /** No label whose blocks are shared or not depending on mutability has both kinds. */
  ghost predicate OneKind(s: Store) {
    forall a: Addr, b: Addr {:trigger s[a], s[b]} ::
      (&& a in s && b in s && s[a].GetLabel() == s[b].GetLabel()
       && !KeepsAddress(s[a].GetLabel()) && !AlwaysShared(s[a].GetLabel())) ==> s[a].mutable == s[b].mutable
  }

  /** The same label, size, integers, places of pointers and bytes. */
  predicate SameLook(v: Block, w: Block) {
    && v.Chunk? == w.Chunk? && v.GetLabel() == w.GetLabel() && |v.Fields()| == |w.Fields()|
    && (v.Chunk? ==> v.bytes == w.bytes) && (AlwaysShared(v.GetLabel()) || v.mutable == w.mutable)
    && forall k {:trigger v.Fields()[k]} {:trigger w.Fields()[k]} :: 0 <= k < |v.Fields()| ==>
         v.Fields()[k].Int? == w.Fields()[k].Int? && (v.Fields()[k].Int? ==> v.Fields()[k] == w.Fields()[k])
  }

  /** r relates blocks that may be shared and look the same, or a block to itself, and so do
      the blocks their pointers lead to: cyclic data can be alike too. */
  ghost predicate Likeness(s: Store, r: set<(Addr, Addr)>) {
    forall a, b {:trigger (a, b) in r} :: (a, b) in r ==>
      && a in s && b in s && (a == b || (Shareable(s[a]) && Shareable(s[b]))) && SameLook(s[a], s[b])
      && forall k {:trigger s[a].Fields()[k]} :: 0 <= k < |s[a].Fields()| && s[a].Fields()[k].Ptr? ==>
           (s[a].Fields()[k].a, s[b].Fields()[k].a) in r
  }

  /** From root, s' shows the same data as s; what may not be shared is found at its own
      address, and what is alike and may be shared is found at one address. */
  ghost predicate Shared(s: Store, s': Store, root: Addr) {
    && (forall a :: a in s ==> a in s' && SameButPointers(s[a], s'[a]))
    && (forall path {:trigger Follow(s, root, path)} {:trigger Follow(s', root, path)} ::
          SameAtPath(s, s', Follow(s, root, path), Follow(s', root, path)))
    && (forall r, a, b {:trigger Likeness(s', r), (a, b) in r} ::
          Likeness(s', r) && (a, b) in r && Reaches(s', root, a) && Reaches(s', root, b) ==> a == b)
    && (forall a, b {:trigger Twins(s', a, b)} :: Reaches(s', root, a) && Reaches(s', root, b) && Twins(s', a, b) ==> a == b)
  }

  /** Two blocks that may be shared look the same and have the same pointers. */
  ghost predicate Twins(s: Store, a: Addr, b: Addr) {
    a in s && b in s && Shareable(s[a]) && Shareable(s[b]) && SameLook(s[a], s[b]) && s[a].Fields() == s[b].Fields()
  }

  ghost predicate SameAtPath(s: Store, s': Store, x: Option<Addr>, y: Option<Addr>) {
    && x.None? == y.None?
    && (x.Some? ==> && x.value in s && y.value in s' && SameLook(s[x.value], s'[y.value])
                    && (!Shareable(s[x.value]) ==> y == x))
  }

  // ---------- the comparison says the same ----------

  lemma LabelsSplit(l: nat)
    ensures KeepsAddress(l) <==> Incomparable(l)
    ensures AlwaysShared(l) <==> AlwaysStructural(l)
    ensures !(KeepsAddress(l) && AlwaysShared(l))
  {
  }

  lemma OneKindUnmixed(s: Store)
    ensures OneKind(s) <==> Unmixed(s)
  {
    hide Incomparable, AlwaysStructural, KeepsAddress, AlwaysShared;
    forall a: Addr, b: Addr | a in s && b in s
      ensures MixedPair(s, a, b) || MixedPair(s, b, a) <==>
              && s[a].GetLabel() == s[b].GetLabel() && !KeepsAddress(s[a].GetLabel()) && !AlwaysShared(s[a].GetLabel())
              && s[a].mutable != s[b].mutable
    {
      LabelsSplit(s[a].GetLabel());
    }
  }

  lemma ShareableIs(b: Block)
    ensures Shareable(b) <==> !ByIdentity(b)
  {
    hide Incomparable, AlwaysStructural, KeepsAddress, AlwaysShared;
    LabelsSplit(b.GetLabel());
  }

  ghost predicate ChunksLabelled(b: Block) {
    b.Chunk? <==> b.GetLabel() == CHUNK_LABEL
  }

  /** Blocks that are observed to be the same look the same, and are one if not to be shared. */
  lemma ObservedLook(s: Store, a: Addr, s': Store, b: Addr)
    requires a in s && b in s' && Observe(s, a) == Observe(s', b) && ChunksLabelled(s[a]) && ChunksLabelled(s'[b])
    ensures SameLook(s[a], s'[b]) && (!Shareable(s[a]) ==> a == b)
  {
    hide Incomparable, AlwaysStructural, KeepsAddress, AlwaysShared;
    LabelsSplit(s[a].GetLabel());
    ShareableIs(s[a]);
    ShareableIs(s'[b]);
    ShapesFields(s[a].Fields(), s'[b].Fields());
  }

  lemma ShapesFields(v: seq<Word>, w: seq<Word>)
    ensures Shapes(v) == Shapes(w) <==>
            |v| == |w| && forall k {:trigger v[k]} {:trigger w[k]} :: 0 <= k < |v| ==> v[k].Int? == w[k].Int? && (v[k].Int? ==> v[k] == w[k])
  {
    if Shapes(v) == Shapes(w) {
      assert |Shapes(v)| == |v| && |Shapes(w)| == |w|;
      forall k | 0 <= k < |v| ensures v[k].Int? == w[k].Int? && (v[k].Int? ==> v[k] == w[k]) {
        assert Shapes(v)[k] == Shapes(w)[k];
      }
    }
  }

  lemma LookObserved(s: Store, a: Addr, b: Addr)
    requires a in s && b in s && SameLook(s[a], s[b]) && (a == b || (Shareable(s[a]) && Shareable(s[b])))
    ensures Observe(s, a) == Observe(s, b)
  {
    hide Incomparable, AlwaysStructural, KeepsAddress, AlwaysShared;
    LabelsSplit(s[a].GetLabel());
    ShareableIs(s[a]);
    ShareableIs(s[b]);
    ShapesFields(s[a].Fields(), s[b].Fields());
  }

  /** Related blocks unfold alike. */
  lemma {:induction false} LikenessUnfolds(s: Store, r: set<(Addr, Addr)>, a: Addr, b: Addr, path: seq<nat>)
    requires Likeness(s, r) && (a, b) in r
    ensures Unfolding(s, a, path) == Unfolding(s, b, path)
    decreases path
  {
    hide Shareable, Observe;
    if path == [] {
      LookObserved(s, a, b);
    } else {
      var k, v, w := path[0], s[a].Fields(), s[b].Fields();
      if k < |v| && v[k].Ptr? {
        assert w[k].Ptr?;
        LikenessUnfolds(s, r, v[k].a, w[k].a, path[1..]);
      }
    }
  }

  /** Blocks that may be shared and hold the same words are alike. */
  lemma SameWordsUnfold(s: Store, a: Addr, b: Addr, path: seq<nat>)
    requires Twins(s, a, b)
    ensures Unfolding(s, a, path) == Unfolding(s, b, path)
  {
    hide Shareable, Observe, SameLook;
    if path == [] {
      LookObserved(s, a, b);
    }
  }

  // ---------- so it is what minimizing gives ----------

  lemma SharedPath(s: Store, s': Store, root: Addr, path: seq<nat>)
    requires Closed(s) && SameUnfolding(s, root, s', root) && forall a :: a in s ==> a in s' && SameButPointers(s[a], s'[a])
    requires s'.Keys == s.Keys
    ensures SameAtPath(s, s', Follow(s, root, path), Follow(s', root, path))
  {
    hide Observe, SameLook, Shareable;
    assert Unfolding(s, root, path) == Unfolding(s', root, path);
    FollowInStore(s, root, path);
    FollowInStore(s', root, path);
    if Follow(s, root, path).Some? {
      var a, b := Follow(s, root, path).value, Follow(s', root, path).value;
      assert b in s && SameButPointers(s[b], s'[b]);
      ObservedLook(s, a, s', b);
    }
  }

  lemma {:induction false} FollowInStore(s: Store, a: Addr, path: seq<nat>)
    ensures Follow(s, a, path).Some? ==> Follow(s, a, path).value in s
    decreases path
  {
    if path != [] && a in s && path[0] < |s[a].Fields()| && s[a].Fields()[path[0]].Ptr? {
      FollowInStore(s, s[a].Fields()[path[0]].a, path[1..]);
    }
  }

  lemma SharedFrom(s: Store, s': Store, root: Addr)
    requires Closed(s) && SameUnfolding(s, root, s', root) && s'.Keys == s.Keys
    requires forall a :: a in s ==> a in s' && SameButPointers(s[a], s'[a])
    requires forall a, b :: Reaches(s', root, a) && Reaches(s', root, b) && SameUnfolding(s', a, s', b) ==> a == b
    ensures Shared(s, s', root)
  {
    hide Closed, SameLook, Shareable, SameButPointers, Likeness, SameAtPath, Reaches, Unfolding, Twins;
    forall path ensures SameAtPath(s, s', Follow(s, root, path), Follow(s', root, path)) {
      SharedPath(s, s', root, path);
    }
    forall r, a, b | Likeness(s', r) && (a, b) in r && Reaches(s', root, a) && Reaches(s', root, b) ensures a == b {
      forall path ensures Unfolding(s', a, path) == Unfolding(s', b, path) {
        LikenessUnfolds(s', r, a, b, path);
      }
      assert SameUnfolding(s', a, s', b);
    }
    forall a, b | Reaches(s', root, a) && Reaches(s', root, b) && Twins(s', a, b) ensures a == b {
      forall path ensures Unfolding(s', a, path) == Unfolding(s', b, path) {
        SameWordsUnfold(s', a, b, path);
      }
      assert SameUnfolding(s', a, s', b);
    }
  }
}
