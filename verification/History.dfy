/** What a length/distance pair means (section 3.2.3 of RFC 1951): every byte
    of the match is the byte dist before it in the whole output. */
module History {
  import opened Bits

  /** r is f followed by len bytes copied from dist back, overlapping or not. */
  ghost predicate Copied(f: seq<Byte>, dist: nat, len: nat, r: seq<Byte>) {
    && 1 <= dist <= |f| && |r| == |f| + len && r[..|f|] == f
    && forall j {:trigger r[j]} :: |f| <= j < |r| ==> r[j] == r[j - dist]
  }

  function CopyBytes(f: seq<Byte>, dist: nat, len: nat): (r: seq<Byte>)
    requires 1 <= dist <= |f|
    ensures |r| == |f| + len
    decreases len
  {
    if len == 0 then f else CopyBytes(f + [f[|f| - dist]], dist, len - 1)
  }

  lemma {:induction false} CopyBytesCopied(f: seq<Byte>, dist: nat, len: nat)
    requires 1 <= dist <= |f|
    ensures Copied(f, dist, len, CopyBytes(f, dist, len))
    decreases len
  {
    hide Copied;
    if len == 0 {
      NothingCopied(f, dist);
    } else {
      var g := f + [f[|f| - dist]];
      OneCopied(f, dist);
      CopyBytesCopied(g, dist, len - 1);
      CopiedMore(f, dist, 1, g, len - 1, CopyBytes(f, dist, len));
    }
  }

  lemma NothingCopied(f: seq<Byte>, dist: nat)
    requires 1 <= dist <= |f|
    ensures Copied(f, dist, 0, f)
  {
  }

  lemma OneCopied(f: seq<Byte>, dist: nat)
    requires 1 <= dist <= |f|
    ensures Copied(f, dist, 1, f + [f[|f| - dist]])
  {
  }

  lemma {:induction false} SameByte(f: seq<Byte>, dist: nat, len: nat, r: seq<Byte>, s: seq<Byte>, j: nat)
    requires Copied(f, dist, len, r) && Copied(f, dist, len, s) && j < |r|
    ensures r[j] == s[j]
    decreases j
  {
    if j < |f| {
      assert r[j] == r[..|f|][j] && s[j] == s[..|f|][j];
    } else {
      SameByte(f, dist, len, r, s, j - dist);
    }
  }

  /** There is exactly one such output. */
  lemma CopiedIsCopyBytes(f: seq<Byte>, dist: nat, len: nat, r: seq<Byte>)
    requires 1 <= dist <= |f|
    ensures Copied(f, dist, len, r) <==> r == CopyBytes(f, dist, len)
  {
    var s := CopyBytes(f, dist, len);
    CopyBytesCopied(f, dist, len);
    if Copied(f, dist, len, r) {
      forall j | 0 <= j < |r| ensures r[j] == s[j] {
        SameByte(f, dist, len, r, s, j);
      }
    }
  }

  lemma CopiedMore(f: seq<Byte>, dist: nat, a: nat, g: seq<Byte>, b: nat, r: seq<Byte>)
    requires Copied(f, dist, a, g) && Copied(g, dist, b, r)
    ensures Copied(f, dist, a + b, r)
  {
    assert r[..|f|] == r[..|g|][..|f|];
    forall j | |f| <= j < |r| ensures r[j] == r[j - dist] {
      if j < |g| {
        assert r[j] == r[..|g|][j] && r[j - dist] == r[..|g|][j - dist];
      }
    }
  }

  // ---------- the circular window ----------

  /** Where the byte k back is in a window whose next byte goes to write. */
  function Slot(wsize: nat, write: nat, k: nat): int {
    if k <= write then write - k else wsize + write - k
  }

  /** The byte k back. */
  function Back(h: seq<Byte>, k: nat): Byte
    requires 1 <= k <= |h|
  {
    h[|h| - k]
  }

  /** The window holds the last bytes of h, as many as fit. */
  ghost predicate WindowHolds(w: seq<Byte>, wsize: nat, whave: nat, write: nat, h: seq<Byte>) {
    if wsize == 0 then h == [] && whave == 0 && write == 0
    else
      && wsize == |w| && write < wsize && whave == (if |h| < wsize then |h| else wsize)
      && (whave < wsize ==> write == whave)
      && forall k {:trigger Back(h, k)} :: 1 <= k <= whave ==> Back(h, k) == w[Slot(wsize, write, k)]
  }

  lemma HoldsFull(w: seq<Byte>, wsize: nat, h: seq<Byte>, c: seq<Byte>)
    requires wsize == |w| <= |c| && 0 < wsize && w == c[|c| - wsize..]
    ensures WindowHolds(w, wsize, wsize, 0, h + c)
  {
    var g := h + c;
    forall k | 1 <= k <= wsize ensures Back(g, k) == w[Slot(wsize, 0, k)] {
      assert Back(g, k) == c[|c| - k];
    }
  }

  lemma HoldsPart(w: seq<Byte>, wsize: nat, whave: nat, write: nat, h: seq<Byte>, c: seq<Byte>, w': seq<Byte>)
    requires WindowHolds(w, wsize, whave, write, h) && wsize > 0 && write + |c| <= wsize
    requires w' == w[..write] + c + w[write + |c|..]
    ensures WindowHolds(w', wsize, if whave < wsize then whave + |c| else whave,
                        if write + |c| == wsize then 0 else write + |c|, h + c)
  {
    var g := h + c;
    var write' := if write + |c| == wsize then 0 else write + |c|;
    var whave' := if whave < wsize then whave + |c| else whave;
    forall k | 1 <= k <= whave' ensures Back(g, k) == w'[Slot(wsize, write', k)] {
      if k <= |c| {
        assert Back(g, k) == c[|c| - k];
      } else {
        assert Back(g, k) == Back(h, k - |c|);
        assert Back(h, k - |c|) == w[Slot(wsize, write, k - |c|)];
      }
    }
  }

  lemma HoldsWrapped(w: seq<Byte>, wsize: nat, whave: nat, write: nat, h: seq<Byte>, c: seq<Byte>, w': seq<Byte>)
    requires WindowHolds(w, wsize, whave, write, h) && wsize > 0 && wsize - write < |c| < wsize
    requires var d := wsize - write; w' == c[d..] + w[|c| - d..write] + c[..d]
    ensures WindowHolds(w', wsize, wsize, |c| - (wsize - write), h + c)
  {
    var d := wsize - write;
    var g := h + c;
    var write' := |c| - d;
    assert |w'| == wsize;
    forall k | 1 <= k <= wsize ensures Back(g, k) == w'[Slot(wsize, write', k)] {
      if k <= |c| {
        assert Back(g, k) == c[|c| - k];
      } else {
        assert Back(g, k) == Back(h, k - |c|);
        assert Back(h, k - |c|) == w[Slot(wsize, write, k - |c|)];
      }
    }
  }

  /** Bytes copied from the window are those the distance means: b is taken from
      consecutive slots, starting with the one for the byte dist back. */
  lemma FromWindow(w: seq<Byte>, wsize: nat, whave: nat, write: nat, h: seq<Byte>, o: seq<Byte>, dist: nat, from: int, b: seq<Byte>)
    requires WindowHolds(w, wsize, whave, write, h) && |o| < dist <= whave + |o|
    requires var k := dist - |o|; from == Slot(wsize, write, k) && |b| <= k && (k > write ==> |b| <= k - write)
    requires 0 <= from && from + |b| <= |w| && b == w[from..from + |b|]
    ensures Copied(h + o, dist, |b|, h + o + b)
  {
    var k := dist - |o|;
    var f, r := h + o, h + o + b;
    forall j | |f| <= j < |r| ensures r[j] == r[j - dist] {
      var i := j - |f|;
      assert r[j] == b[i];
      assert r[j - dist] == Back(h, k - i);
      assert Back(h, k - i) == w[Slot(wsize, write, k - i)];
    }
  }

  /** Bytes copied from the output itself. */
  lemma FromOutput(h: seq<Byte>, o: seq<Byte>, dist: nat, b: seq<Byte>)
    requires 1 <= dist <= |o|
    requires forall i {:trigger b[i]} :: 0 <= i < |b| ==> b[i] == (o + b)[|o| + i - dist]
    ensures Copied(h + o, dist, |b|, h + o + b)
  {
    var f, r := h + o, h + o + b;
    forall j | |f| <= j < |r| ensures r[j] == r[j - dist] {
      var i := j - |f|;
      assert r[j] == b[i];
      assert r[j - dist] == (o + b)[|o| + i - dist];
    }
  }
}
