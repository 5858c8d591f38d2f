/** The circular window of inflate across any number of calls, each with an output
    buffer of its own, and the copying of matches. */
module InflateWindow {
  import opened Bits
  import opened History

  /** What the decoder is told to put out. */
  datatype Op = Lit(b: Byte) | Match(len: nat, dist: nat)

  /** A distance does not reach back before the start of the output. */
  ghost predicate OpOK(h: seq<Byte>, op: Op) {
    op.Match? ==> 1 <= op.len && 1 <= op.dist <= |h|
  }

  /** No distance is larger than the window. */
  ghost predicate InWindow(ops: seq<Op>, wmax: nat) {
    forall i {:trigger ops[i]} :: 0 <= i < |ops| && ops[i].Match? ==> ops[i].dist <= wmax
  }

  ghost function Apply(h: seq<Byte>, op: Op): seq<Byte>
    requires op.Match? ==> 1 <= op.dist <= |h|
  {
    match op
    case Lit(b) => h + [b]
    case Match(len, dist) => CopyBytes(h, dist, len)
  }

  /** No distance reaches back before the start of the output. */
  ghost predicate OpsOK(h: seq<Byte>, ops: seq<Op>)
    decreases |ops|
  {
    ops == [] || (OpOK(h, ops[0]) && OpsOK(Apply(h, ops[0]), ops[1..]))
  }

  /** The whole output, copying from the whole output so far. */
  ghost function ApplyAll(h: seq<Byte>, ops: seq<Op>): seq<Byte>
    requires OpsOK(h, ops)
    decreases |ops|
  {
    if ops == [] then h else ApplyAll(Apply(h, ops[0]), ops[1..])
  }

  lemma {:induction false} CopyBytesPrefix(h: seq<Byte>, dist: nat, len: nat)
    requires 1 <= dist <= |h|
    ensures h <= CopyBytes(h, dist, len)
    decreases len
  {
    if len > 0 {
      CopyBytesPrefix(h + [h[|h| - dist]], dist, len - 1);
      assert h <= h + [h[|h| - dist]];
    }
  }

  lemma {:induction false} OutputPrefix(h: seq<Byte>, ops: seq<Op>)
    requires OpsOK(h, ops)
    ensures h <= ApplyAll(h, ops)
    decreases |ops|
  {
    hide CopyBytes;
    if ops != [] {
      OutputPrefix(Apply(h, ops[0]), ops[1..]);
      if ops[0].Match? {
        CopyBytesPrefix(h, ops[0].dist, ops[0].len);
      }
    }
  }

  /** A match that is only done in part. */
  lemma CopyRest(h: seq<Byte>, dist: nat, len: nat, a: nat, g: seq<Byte>)
    requires a <= len && Copied(h, dist, a, g)
    ensures CopyBytes(h, dist, len) == CopyBytes(g, dist, len - a)
  {
    hide Copied, CopyBytes;
    CopiedSize(h, dist, a, g);
    CopyBytesCopied(g, dist, len - a);
    CopiedMore(h, dist, a, g, len - a, CopyBytes(g, dist, len - a));
    CopiedIsCopyBytes(h, dist, len, CopyBytes(g, dist, len - a));
  }

  lemma CopiedSize(f: seq<Byte>, dist: nat, len: nat, r: seq<Byte>)
    requires Copied(f, dist, len, r)
    ensures 1 <= dist <= |f| && |r| == |f| + len
  {
  }

  /** w with the n bytes of o from from on in its place to. */
  function Overwritten(w: seq<Byte>, to: nat, o: seq<Byte>, from: nat, n: nat): (r: seq<Byte>)
    requires to + n <= |w| && from + n <= |o|
    ensures |r| == |w|
  {
    w[..to] + o[from..from + n] + w[to + n..]
  }

  lemma OverwrittenNone(w: seq<Byte>, to: nat, o: seq<Byte>, from: nat)
    requires to <= |w| && from <= |o|
    ensures Overwritten(w, to, o, from, 0) == w
  {
  }

  lemma OverwrittenMore(w: seq<Byte>, to: nat, o: seq<Byte>, from: nat, n: nat)
    requires to + n < |w| && from + n < |o|
    ensures Overwritten(w, to, o, from, n)[to + n := o[from + n]] == Overwritten(w, to, o, from, n + 1)
  {
  }

  lemma AfterFull(w: seq<Byte>, wsize: nat, h: seq<Byte>, o: seq<Byte>, put: nat, w': seq<Byte>)
    requires 0 < wsize == |w| <= put <= |o| && w' == Overwritten(w, 0, o, put - wsize, wsize)
    ensures WindowHolds(w', wsize, wsize, 0, h + o[..put])
  {
    assert w' == o[..put][put - wsize..];
    HoldsFull(w', wsize, h, o[..put]);
  }

  lemma AfterWrap(w: seq<Byte>, wsize: nat, whave: nat, write: nat, h: seq<Byte>, o: seq<Byte>, put: nat, w1: seq<Byte>, w2: seq<Byte>)
    requires WindowHolds(w, wsize, whave, write, h) && 0 < wsize == |w| && write < wsize && wsize - write < put < wsize && put <= |o|
    requires w1 == Overwritten(w, write, o, 0, wsize - write)
    requires w2 == Overwritten(w1, 0, o, wsize - write, put - (wsize - write))
    ensures WindowHolds(w2, wsize, wsize, put - (wsize - write), h + o[..put])
  {
    hide WindowHolds;
    var c, d := o[..put], wsize - write;
    assert w2 == c[d..] + w[put - d..write] + c[..d];
    HoldsWrapped(w, wsize, whave, write, h, c, w2);
  }

  lemma AfterPart(w: seq<Byte>, wsize: nat, whave: nat, write: nat, h: seq<Byte>, o: seq<Byte>, put: nat, w1: seq<Byte>)
    requires WindowHolds(w, wsize, whave, write, h) && 0 < wsize == |w| && write + put <= wsize && put <= |o|
    requires w1 == Overwritten(w, write, o, 0, put)
    ensures WindowHolds(w1, wsize, if whave < wsize then whave + put else whave, if write + put == wsize then 0 else write + put, h + o[..put])
  {
    hide WindowHolds;
    assert o[0..put] == o[..put];
    HoldsPart(w, wsize, whave, write, h, o[..put], w1);
  }

  class Inflater {
    const window: array<Byte>
    var wsize: nat
    var whave: nat
    var write: nat
    // the output buffer of the current call, and how much of it is used
    var out: array<Byte>
    var put: nat
    // the output of all earlier calls
    ghost var before: seq<Byte>

    ghost predicate Valid()
      reads this, window, out
    {
      && window != out && window.Length > 0 && (wsize == 0 || wsize == window.Length) && put <= out.Length
      && WindowHolds(window[..], wsize, whave, write, before)
    }

    /** All output so far. */
    ghost function Output(): seq<Byte>
      reads this, out
      requires put <= out.Length
    {
      before + out[..put]
    }

    constructor (wbits: nat, size: nat)
      ensures Valid() && Output() == [] && window.Length == Pow2(wbits) && out.Length == size && put == 0 && before == []
      ensures fresh(window) && fresh(out)
    {
      window := new Byte[Pow2(wbits)];
      out := new Byte[size];
      wsize, whave, write, put := 0, 0, 0, 0;
      before := [];
    }

    /** zmemcpy from the output buffer into the window. */
    method Memcpy(to: nat, from: nat, n: nat)
      requires window != out && to + n <= window.Length && from + n <= out.Length
      modifies window
      ensures window[..] == Overwritten(old(window[..]), to, out[..], from, n)
    {
      hide Overwritten;
      OverwrittenNone(window[..], to, out[..], from);
      for i := 0 to n
        invariant window[..] == Overwritten(old(window[..]), to, out[..], from, i)
      {
        OverwrittenMore(old(window[..]), to, out[..], from, i);
        window[to + i] := out[from + i];
      }
    }

    /** Copies the output of this call into the window, all of it or the last wsize bytes. */
    method UpdateWindow()
      requires Valid()
      modifies this`wsize, this`whave, this`write, window
      ensures wsize == window.Length && out == old(out) && put == old(put)
      ensures out[..] == old(out[..])
      ensures WindowHolds(window[..], wsize, whave, write, before + out[..put])
      ensures put >= window.Length ==> write == 0
    {
      hide WindowHolds, Overwritten;
      if wsize == 0 {
        EmptyWindow(window[..], whave, write, before);
        wsize := window.Length;
        write := 0;
        whave := 0;
      }
      ghost var w, o := window[..], out[..];
      WindowBounds(w, wsize, whave, write, before);
      var copy := put;
      if copy >= wsize {
        Memcpy(0, put - wsize, wsize);
        AfterFull(w, wsize, before, o, put, window[..]);
        write := 0;
        whave := wsize;
      } else {
        var dist := wsize - write;
        if dist > copy {
          dist := copy;
        }
        Memcpy(write, put - copy, dist);
        ghost var w1 := window[..];
        copy := copy - dist;
        if copy != 0 {
          Memcpy(0, put - copy, copy);
          AfterWrap(w, wsize, whave, write, before, o, put, w1, window[..]);
          write := copy;
          whave := wsize;
        } else {
          AfterPart(w, wsize, whave, write, before, o, put, w1);
          write := write + dist;
          if write == wsize {
            write := 0;
          }
          if whave < wsize {
            whave := whave + dist;
          }
        }
      }
    }

    /** Returns from inflate and calls it again with an output buffer of the given size. */
    method NewCall(size: nat)
      requires Valid()
      modifies this, window
      ensures Valid() && Output() == old(Output()) && out.Length == size && put == 0 && fresh(out)
      ensures before == old(Output())
      ensures old(put) >= window.Length ==> write == 0
    {
      hide WindowHolds;
      if wsize != 0 || put != 0 {
        UpdateWindow();
      } else {
        NoWindow(window[..], whave, write, before);
        assert before + out[..put] == before;
      }
      before := before + out[..put];
      out := new Byte[size];
      put := 0;
    }

    /** A literal byte, if there is room. */
    method Literal(b: Byte)
      requires Valid() && put < out.Length
      modifies this`put, out
      ensures Valid() && Output() == old(Output()) + [b] && put == old(put) + 1 && out == old(out) && before == old(before)
    {
      out[put] := b;
      put := put + 1;
    }

    /** The check of a distance. */
    method DistanceOK(offset: nat) returns (ok: bool)
      requires Valid()
      ensures ok ==> offset <= |Output()|
      ensures offset <= |Output()| && offset <= window.Length ==> ok
      ensures ok <==> offset <= whave + put
    {
      WindowReach(window[..], wsize, whave, write, before);
      return offset <= whave + put;
    }

    /** The MATCH state: copies as much of a match as one piece of the window or the
        rest of the output buffer allows. */
    method MatchState(length: nat, offset: nat) returns (rest: nat)
      requires Valid() && put < out.Length && 1 <= length && 1 <= offset <= whave + put
      modifies this`put, out
      ensures Valid() && out == old(out) && before == old(before) && whave == old(whave) && old(put) < put
      ensures rest < length && Copied(old(Output()), offset, length - rest, Output())
    {
      hide WindowHolds, Copied, Slot;
      WindowBounds(window[..], wsize, whave, write, before);
      var left := out.Length - put;
      var copy := put;
      if offset > copy {
        copy := offset - copy;
        var from;
        if copy > write {
          copy := copy - write;
          from := wsize - copy;
        } else {
          from := write - copy;
        }
        PieceOfWindow(wsize, whave, write, offset - put, from, copy);
        if copy > length {
          copy := length;
        }
        if copy > left {
          copy := left;
        }
        CopyFromWindow(from, copy, offset);
      } else {
        copy := length;
        if copy > left {
          copy := left;
        }
        CopyOutput(offset, copy);
      }
      rest := length - copy;
    }

    /** Copies a piece of the window that the distance means. */
    method CopyFromWindow(from: nat, n: nat, ghost offset: nat)
      requires Valid() && put < offset <= whave + put && from + n <= window.Length && put + n <= out.Length
      requires from == Slot(wsize, write, offset - put) && n <= offset - put && (offset - put > write ==> n <= offset - put - write)
      modifies this`put, out
      ensures Valid() && out == old(out) && put == old(put) + n
      ensures Copied(old(Output()), offset, n, Output())
    {
      hide WindowHolds, Copied, Slot;
      FromWindow(window[..], wsize, whave, write, before, out[..put], offset, from, window[from..from + n]);
      CopyWindow(from, n);
    }

    method CopyWindow(from: nat, n: nat)
      requires Valid() && from + n <= window.Length && put + n <= out.Length
      modifies this`put, out
      ensures Valid() && out == old(out) && put == old(put) + n
      ensures Output() == old(Output()) + window[from..from + n]
    {
      hide WindowHolds;
      for i := 0 to n
        invariant Valid() && put == old(put) + i && put + n - i <= out.Length
        invariant Output() == old(Output()) + window[from..from + i]
      {
        ghost var h := Output();
        out[put] := window[from + i];
        put := put + 1;
        assert Output() == h + [window[from + i]];
      }
    }

    method CopyOutput(offset: nat, n: nat)
      requires Valid() && 1 <= offset <= put && put + n <= out.Length
      modifies this`put, out
      ensures Valid() && out == old(out) && put == old(put) + n
      ensures Copied(old(Output()), offset, n, Output())
    {
      hide WindowHolds, Copied;
      NothingCopied(Output(), offset);
      for i := 0 to n
        invariant Valid() && put == old(put) + i && put + n - i <= out.Length
        invariant Copied(old(Output()), offset, i, Output())
      {
        ghost var h := Output();
        OneMore(before, out[..put], offset);
        CopiedMore(old(Output()), offset, i, h, 1, h + [out[put - offset]]);
        out[put] := out[put - offset];
        put := put + 1;
        assert Output() == h + [out[put - 1]];
      }
    }

    /** Where the MATCH state reads from, when that is the window. */
    function WindowIndex(offset: nat): int
      reads this
    {
      var copy := offset - put;
      if copy > write then wsize - (copy - write) else write - copy
    }

    /** A match over calls with output buffers of the given sizes from j0 on. It is stuck,
        about to read outside of the window or from the wrong place in it, exactly if it
        goes on in a later call and the distance is larger than the window. */
    method MatchOverCalls(length: nat, offset: nat, sizes: seq<nat>, j0: nat) returns (stuck: bool, rest: nat, j: nat)
      requires Valid() && 1 <= offset <= whave + put && j0 <= |sizes|
      modifies this, window, out
      ensures Valid() && (out == old(out) || fresh(out)) && j0 <= j <= |sizes|
      ensures rest <= length && Copied(old(Output()), offset, length - rest, Output())
      ensures stuck <==> length > old(out.Length - put) && j0 < |sizes| && offset > window.Length
      ensures stuck ==> rest > 0 && j == j0 + 1 && put == 0 && before == Output() && wsize == window.Length && offset > whave
      ensures stuck && old(out.Length) >= window.Length ==> write == 0
      ensures rest > 0 ==> stuck || (j == |sizes| && put == out.Length)
      ensures j == j0 ==> before == old(before) && out == old(out)
      ensures j > j0 ==> out.Length == sizes[j - 1]
    {
      hide WindowHolds, Copied;
      stuck, rest, j := false, length, j0;
      WindowReach(window[..], wsize, whave, write, before);
      NothingCopied(Output(), offset);
      while rest > 0
        invariant Valid() && (out == old(out) || fresh(out)) && j0 <= j <= |sizes| && rest <= length
        invariant Copied(old(Output()), offset, length - rest, Output()) && offset <= whave + put
        invariant j == j0 ==> before == old(before) && out == old(out) && put == old(put) + length - rest
        invariant j > j0 ==> offset <= window.Length && out.Length == sizes[j - 1]
        decreases |sizes| - j, rest
      {
        CopiedSize(old(Output()), offset, length - rest, Output());
        if put < out.Length {
          rest := MatchMore(length, rest, offset, old(Output()));
        } else {
          if j == |sizes| {
            return;
          }
          NextMatchCall(sizes[j], offset);
          j := j + 1;
          if offset > whave + put {
            stuck := true;
            return;
          }
        }
      }
    }

    /** The MATCH state, of a match of which rest bytes are missing. */
    method MatchMore(length: nat, rest0: nat, offset: nat, ghost h: seq<Byte>) returns (rest: nat)
      requires Valid() && put < out.Length && 1 <= rest0 <= length && 1 <= offset <= whave + put && Copied(h, offset, length - rest0, Output())
      modifies this`put, out
      ensures Valid() && out == old(out) && before == old(before) && whave == old(whave) && put == old(put) + rest0 - rest
      ensures rest < rest0 && Copied(h, offset, length - rest, Output())
    {
      hide WindowHolds, Copied;
      ghost var g := Output();
      rest := MatchState(rest0, offset);
      CopiedMore(h, offset, length - rest0, g, rest0 - rest, Output());
      CopiedSize(g, offset, rest0 - rest, Output());
    }

    /** The next call when the output buffer is full: whether the match can go on. */
    method NextMatchCall(size: nat, offset: nat)
      requires Valid() && offset <= |Output()| && 1 <= offset
      modifies this, window
      ensures Valid() && fresh(out) && out.Length == size && put == 0 && Output() == old(Output()) && before == Output()
      ensures wsize == window.Length && (offset > whave + put <==> offset > window.Length)
      ensures old(put) >= window.Length ==> write == 0
    {
      hide WindowHolds;
      NewCall(size);
      WindowReach(window[..], wsize, whave, write, before);
      NoWindowNoOutput(window[..], wsize, whave, write, before);
    }

    /** A literal, in the next call that has room for it. */
    method LiteralOverCalls(b: Byte, sizes: seq<nat>, j0: nat) returns (ok: bool, j: nat)
      requires Valid() && j0 <= |sizes|
      modifies this, window, out
      ensures Valid() && (out == old(out) || fresh(out)) && j0 <= j <= |sizes|
      ensures Output() == if ok then old(Output()) + [b] else old(Output())
      ensures !ok ==> j == |sizes| && put == out.Length
    {
      hide WindowHolds;
      j := j0;
      while put == out.Length
        invariant Valid() && j0 <= j <= |sizes| && (out == old(out) || fresh(out)) && Output() == old(Output())
        decreases |sizes| - j
      {
        if j == |sizes| {
          return false, j;
        }
        NewCall(sizes[j]);
        j := j + 1;
      }
      Literal(b);
      ok := true;
    }

    /** Any run of literals and matches, over calls with output buffers of any sizes. What is
        put out is what copying from the whole output gives, as far as there was room; only
        distances before the start of the output or larger than the window end it early. */
    method Run(ops: seq<Op>, sizes: seq<nat>) returns (r: RunEnd)
      requires Valid() && forall i {:trigger ops[i]} :: 0 <= i < |ops| && ops[i].Match? ==> 1 <= ops[i].len && 1 <= ops[i].dist
      modifies this, window, out
      ensures Valid()
      ensures r == Finished ==> OpsOK(old(Output()), ops) && Output() == ApplyAll(old(Output()), ops)
      ensures r == TooFar || r == Stuck ==> !(OpsOK(old(Output()), ops) && InWindow(ops, window.Length))
      ensures r == NoRoom ==> put == out.Length
      ensures OpsOK(old(Output()), ops) ==> Output() <= ApplyAll(old(Output()), ops)
    {
      hide WindowHolds, Copied, CopyBytes, OpsOK, ApplyAll;
      ghost var h := Output();
      var j := 0;
      assert ops[0..] == ops;
      for i := 0 to |ops|
        invariant Valid() && j <= |sizes| && (out == old(out) || fresh(out))
        invariant OpsOK(h, ops) <==> OpsOK(Output(), ops[i..])
        invariant OpsOK(h, ops) ==> ApplyAll(h, ops) == ApplyAll(Output(), ops[i..])
      {
        ghost var g := Output();
        OpsSplit(g, ops[i..]);
        assert ops[i..][1..] == ops[i + 1..];
        if OpsOK(h, ops) {
          OutputPrefix(g, ops[i..]);
        }
        match ops[i] {
          case Lit(b) =>
            var ok;
            ok, j := LiteralOverCalls(b, sizes, j);
            if !ok {
              return NoRoom;
            }
          case Match(len, dist) =>
            WindowReach(window[..], wsize, whave, write, before);
            var near := DistanceOK(dist);
            if !near {
              return TooFar;
            }
            var stuck, rest;
            stuck, rest, j := MatchOverCalls(len, dist, sizes, j);
            CopyRest(g, dist, len, len - rest, Output());
            CopiedSize(g, dist, len - rest, Output());
            CopyBytesPrefix(Output(), dist, rest);
            if OpsOK(h, ops) {
              OutputPrefix(Apply(g, ops[i]), ops[i + 1..]);
            }
            if stuck {
              return Stuck;
            }
            if rest > 0 {
              return NoRoom;
            }
            CopyNone(Output(), dist);
        }
      }
      assert ops[|ops|..] == [];
      OutputNone(Output());
      return Finished;
    }
  }

  /** How a run of literals and matches ends. */
  datatype RunEnd = Finished | NoRoom | TooFar | Stuck

  /** With a window of 256 bytes and 300 bytes put out in a buffer of 301, the distance 300 is
      accepted, one byte is copied, and the next call would read before the window. */
  method FarMatch(b: Byte) returns (z: Inflater, accepted: bool, stuck: bool)
    ensures fresh(z) && accepted && stuck && z.Valid() && z.window.Length == 256 && z.WindowIndex(300) < 0
  {
    hide WindowHolds, Copied;
    Pow2Byte();
    z := new Inflater(8, 301);
    for i := 0 to 300
      invariant fresh(z) && fresh(z.window) && fresh(z.out) && z.Valid() && z.window.Length == 256
      invariant z.out.Length == 301 && z.put == i && z.before == []
    {
      z.Literal(b);
    }
    accepted := z.DistanceOK(300);
    var rest, j;
    stuck, rest, j := z.MatchOverCalls(3, 300, [10], 0);
    WindowBounds(z.window[..], z.wsize, z.whave, z.write, z.before);
  }

  lemma Pow2Byte()
    ensures Pow2(8) == 256
  {
    assert Pow2(4) == 16;
  }

  /** The consecutive slots from the one for the byte k back. */
  lemma PieceOfWindow(wsize: nat, whave: nat, write: nat, k: nat, from: int, n: nat)
    requires write < wsize && 1 <= k <= whave <= wsize && (whave < wsize ==> write == whave)
    requires if k > write then n == k - write && from == wsize - n else n == k && from == write - k
    ensures 0 <= from && from + n <= wsize && 1 <= n <= k && from == Slot(wsize, write, k) && (k > write ==> n <= k - write)
  {
  }

  lemma OneMore(h: seq<Byte>, o: seq<Byte>, dist: nat)
    requires 1 <= dist <= |o|
    ensures Copied(h + o, dist, 1, h + o + [o[|o| - dist]])
  {
    FromOutput(h, o, dist, [o[|o| - dist]]);
  }

  lemma EmptyWindow(w: seq<Byte>, whave: nat, write: nat, h: seq<Byte>)
    requires |w| > 0 && WindowHolds(w, 0, whave, write, h)
    ensures WindowHolds(w, |w|, 0, 0, h)
  {
  }

  lemma NoWindow(w: seq<Byte>, whave: nat, write: nat, h: seq<Byte>)
    requires WindowHolds(w, 0, whave, write, h)
    ensures h == []
  {
  }

  lemma WindowBounds(w: seq<Byte>, wsize: nat, whave: nat, write: nat, h: seq<Byte>)
    requires WindowHolds(w, wsize, whave, write, h)
    ensures wsize > 0 ==> write < wsize == |w| && whave <= wsize && (whave < wsize ==> write == whave)
    ensures wsize == 0 ==> whave == 0
  {
  }

  lemma WindowReach(w: seq<Byte>, wsize: nat, whave: nat, write: nat, h: seq<Byte>)
    requires WindowHolds(w, wsize, whave, write, h) && (wsize == 0 || wsize == |w|)
    ensures whave == if |h| < |w| || wsize == 0 then |h| else |w|
  {
  }

  lemma OpsFirst(h: seq<Byte>, ops: seq<Op>)
    requires ops != [] && OpsOK(h, ops)
    ensures OpOK(h, ops[0]) && OpsOK(Apply(h, ops[0]), ops[1..])
    ensures ApplyAll(h, ops) == ApplyAll(Apply(h, ops[0]), ops[1..])
  {
  }

  lemma OutputNone(h: seq<Byte>)
    ensures OpsOK(h, []) && ApplyAll(h, []) == h
  {
  }

  lemma OpsSplit(h: seq<Byte>, ops: seq<Op>)
    requires ops != []
    ensures OpsOK(h, ops) <==> OpOK(h, ops[0]) && OpsOK(Apply(h, ops[0]), ops[1..])
    ensures OpsOK(h, ops) ==> ApplyAll(h, ops) == ApplyAll(Apply(h, ops[0]), ops[1..])
  {
  }

  lemma NoWindowNoOutput(w: seq<Byte>, wsize: nat, whave: nat, write: nat, h: seq<Byte>)
    requires WindowHolds(w, wsize, whave, write, h)
    ensures wsize == 0 ==> h == []
  {
  }

  lemma CopyNone(h: seq<Byte>, dist: nat)
    requires 1 <= dist <= |h|
    ensures CopyBytes(h, dist, 0) == h
  {
  }
}
