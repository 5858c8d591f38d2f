/** The copy paths of inflate_fast, which differ from the MATCH state in the pieces they
    copy and in copying three bytes at a time. */
module FastCopy {
  import opened Bits
  import opened History
  import opened InflateWindow

  /** A source pointer into the window or into the output, from which n bytes can be
      copied for the distance dist. */
  ghost predicate CanCopy(win: bool, from: int, put: nat, dist: nat, wsize: nat, whave: nat, write: nat, n: nat) {
    if win then
      n == 0 ||
      (&& put < dist <= whave + put && from == Slot(wsize, write, dist - put)
       && n <= dist - put && (dist - put > write ==> n <= dist - put - write))
    else from == put - dist && 1 <= dist <= put
  }

  lemma CanCopyNext(win: bool, from: int, put: nat, dist: nat, wsize: nat, whave: nat, write: nat, n: nat)
    requires CanCopy(win, from, put, dist, wsize, whave, write, n) && n >= 1
    ensures CanCopy(win, from + 1, put + 1, dist, wsize, whave, write, n - 1)
  {
  }

  lemma OneSlot(w: seq<Byte>, from: nat)
    requires from < |w|
    ensures w[from..from + 1] == [w[from]]
  {
  }

  /** Copies one byte and moves both pointers. */
  method CopyOne(z: Inflater, win: bool, from: nat, ghost dist: nat, ghost n: nat)
    requires z.Valid() && z.put < z.out.Length && n >= 1
    requires CanCopy(win, from, z.put, dist, z.wsize, z.whave, z.write, n)
    modifies z`put, z.out
    ensures z.Valid() && z.put == old(z.put) + 1 && z.before == old(z.before)
    ensures Copied(old(z.Output()), dist, 1, z.Output())
    ensures CanCopy(win, from + 1, z.put, dist, z.wsize, z.whave, z.write, n - 1)
  {
    hide WindowHolds, Copied;
    WindowBounds(z.window[..], z.wsize, z.whave, z.write, z.before);
    CanCopyNext(win, from, z.put, dist, z.wsize, z.whave, z.write, n);
    ghost var h := z.Output();
    if win {
      ghost var w := z.window[..];
      assert from < |w| && w[from] == z.window[from];
      OneSlot(w, from);
      FromWindow(w, z.wsize, z.whave, z.write, z.before, z.out[..z.put], dist, from, [z.window[from]]);
      z.Literal(z.window[from]);
    } else {
      OneMore(z.before, z.out[..z.put], dist);
      z.Literal(z.out[from]);
    }
  }

  /** Copies len bytes, three at a time. */
  method CopyThrees(z: Inflater, win: bool, from0: nat, dist: nat, len0: nat)
    requires z.Valid() && z.put + len0 <= z.out.Length && 1 <= dist <= z.whave + z.put
    requires CanCopy(win, from0, z.put, dist, z.wsize, z.whave, z.write, len0)
    modifies z`put, z.out
    ensures z.Valid() && z.put == old(z.put) + len0 && z.before == old(z.before)
    ensures Copied(old(z.Output()), dist, len0, z.Output())
  {
    hide WindowHolds, Copied, CanCopy;
    var from, len := from0, len0;
    ghost var h := z.Output();
    WindowReach(z.window[..], z.wsize, z.whave, z.write, z.before);
    NothingCopied(h, dist);
    while len > 2
      invariant z.Valid() && 0 <= len <= len0 && z.put == old(z.put) + (len0 - len) && z.put + len <= z.out.Length && 0 <= from
      invariant z.before == old(z.before)
      invariant Copied(h, dist, len0 - len, z.Output())
      invariant CanCopy(win, from, z.put, dist, z.wsize, z.whave, z.write, len)
    {
      CopyThree(z, win, from, dist, len, h, len0 - len);
      from := from + 3;
      len := len - 3;
    }
    CopyTail(z, win, from, dist, len, h, len0 - len);
  }

  /** Three bytes more. */
  method CopyThree(z: Inflater, win: bool, from: nat, ghost dist: nat, ghost n: nat, ghost h: seq<Byte>, ghost i: nat)
    requires z.Valid() && z.put + 3 <= z.out.Length && n >= 3 && Copied(h, dist, i, z.Output())
    requires CanCopy(win, from, z.put, dist, z.wsize, z.whave, z.write, n)
    modifies z`put, z.out
    ensures z.Valid() && z.put == old(z.put) + 3 && z.before == old(z.before)
    ensures Copied(h, dist, i + 3, z.Output())
    ensures CanCopy(win, from + 3, z.put, dist, z.wsize, z.whave, z.write, n - 3)
  {
    hide WindowHolds, Copied, CanCopy;
    CopyNext(z, win, from, dist, n, h, i);
    CopyNext(z, win, from + 1, dist, n - 1, h, i + 1);
    CopyNext(z, win, from + 2, dist, n - 2, h, i + 2);
  }

  /** The one or two bytes that are left. */
  method CopyTail(z: Inflater, win: bool, from: nat, ghost dist: nat, len: nat, ghost h: seq<Byte>, ghost i: nat)
    requires z.Valid() && z.put + len <= z.out.Length && len <= 2 && Copied(h, dist, i, z.Output())
    requires CanCopy(win, from, z.put, dist, z.wsize, z.whave, z.write, len)
    modifies z`put, z.out
    ensures z.Valid() && z.put == old(z.put) + len && z.before == old(z.before)
    ensures Copied(h, dist, i + len, z.Output())
  {
    hide WindowHolds, Copied, CanCopy;
    if len != 0 {
      CopyNext(z, win, from, dist, len, h, i);
      if len > 1 {
        CopyNext(z, win, from + 1, dist, len - 1, h, i + 1);
      }
    }
  }

  /** One byte more of a match of which i bytes are done. */
  method CopyNext(z: Inflater, win: bool, from: nat, ghost dist: nat, ghost n: nat, ghost h: seq<Byte>, ghost i: nat)
    requires z.Valid() && z.put < z.out.Length && n >= 1 && Copied(h, dist, i, z.Output())
    requires CanCopy(win, from, z.put, dist, z.wsize, z.whave, z.write, n)
    modifies z`put, z.out
    ensures z.Valid() && z.put == old(z.put) + 1 && z.before == old(z.before)
    ensures Copied(h, dist, i + 1, z.Output())
    ensures CanCopy(win, from + 1, z.put, dist, z.wsize, z.whave, z.write, n - 1)
  {
    hide WindowHolds, Copied, CanCopy;
    ghost var g := z.Output();
    CopyOne(z, win, from, dist, n);
    CopiedMore(h, dist, i, g, 1, z.Output());
  }

  /** Copies n bytes of a piece of the window, one at a time. */
  method CopyPiece(z: Inflater, from: nat, dist: nat, n: nat)
    requires z.Valid() && z.put + n <= z.out.Length && n >= 1
    requires CanCopy(true, from, z.put, dist, z.wsize, z.whave, z.write, n)
    modifies z`put, z.out
    ensures z.Valid() && z.put == old(z.put) + n && z.before == old(z.before)
    ensures Copied(old(z.Output()), dist, n, z.Output())
  {
    hide WindowHolds, Copied;
    WindowBounds(z.window[..], z.wsize, z.whave, z.write, z.before);
    FromWindow(z.window[..], z.wsize, z.whave, z.write, z.before, z.out[..z.put], dist, from, z.window[from..from + n]);
    z.CopyWindow(from, n);
  }

  /** A match of len bytes from dist back: from the output, or in up to three pieces, from
      the end of the window, its start, and the output. */
  method FastMatch(z: Inflater, dist: nat, len0: nat) returns (bad: bool)
    requires z.Valid() && 1 <= dist && 3 <= len0 && z.put + len0 <= z.out.Length
    modifies z`put, z.out
    ensures z.Valid() && z.before == old(z.before)
    ensures bad <==> dist > z.whave + old(z.put)
    ensures bad ==> z.Output() == old(z.Output())
    ensures !bad ==> z.put == old(z.put) + len0 && Copied(old(z.Output()), dist, len0, z.Output())
  {
    hide WindowHolds, Copied;
    ghost var h := z.Output();
    WindowBounds(z.window[..], z.wsize, z.whave, z.write, z.before);
    var op := z.put;
    if dist <= op {
      CopyDirect(z, dist, len0);
      return false;
    }
    op := dist - op;
    if op > z.whave {
      return true;
    }
    var len := len0;
    if z.write == 0 {
      var from := z.wsize - op;
      if op < len {
        len := len - op;
        CopyPiece(z, from, dist, op);
        Rest(z, h, dist, len0, len, false, z.put - dist);
      } else {
        CopyThrees(z, true, from, dist, len);
      }
    } else if z.write < op {
      WrappedMatch(z, dist, len);
    } else {
      var from := z.write - op;
      if op < len {
        len := len - op;
        CopyPiece(z, from, dist, op);
        Rest(z, h, dist, len0, len, false, z.put - dist);
      } else {
        CopyThrees(z, true, from, dist, len);
      }
    }
    return false;
  }

  /** A match that begins in the part of the window after the last byte written. */
  method WrappedMatch(z: Inflater, dist: nat, len0: nat)
    requires z.Valid() && 3 <= len0 && z.put + len0 <= z.out.Length && 0 < z.write < dist - z.put <= z.whave
    modifies z`put, z.out
    ensures z.Valid() && z.before == old(z.before) && z.put == old(z.put) + len0
    ensures Copied(old(z.Output()), dist, len0, z.Output())
  {
    hide WindowHolds, Copied;
    ghost var h := z.Output();
    WindowBounds(z.window[..], z.wsize, z.whave, z.write, z.before);
    var op, len := dist - z.put, len0;
    var from := z.wsize + z.write - op;
    op := op - z.write;
    if op < len {
      len := len - op;
      CopyPiece(z, from, dist, op);
      if z.write < len {
        op := z.write;
        len := len - op;
        ghost var g := z.Output();
        CopyPiece(z, 0, dist, op);
        CopiedMore(h, dist, len0 - len - op, g, op, z.Output());
        Rest(z, h, dist, len0, len, false, z.put - dist);
      } else {
        Rest(z, h, dist, len0, len, true, 0);
      }
    } else {
      CopyThrees(z, true, from, dist, len);
    }
  }

  /** The last len bytes of a match. */
  method Rest(z: Inflater, ghost h: seq<Byte>, dist: nat, ghost len0: nat, len: nat, win: bool, from: nat)
    requires z.Valid() && z.put + len <= z.out.Length && 1 <= dist <= z.whave + z.put && len <= len0
    requires Copied(h, dist, len0 - len, z.Output())
    requires CanCopy(win, from, z.put, dist, z.wsize, z.whave, z.write, len)
    modifies z`put, z.out
    ensures z.Valid() && z.put == old(z.put) + len && z.before == old(z.before)
    ensures Copied(h, dist, len0, z.Output())
  {
    hide WindowHolds, Copied, CanCopy;
    ghost var g := z.Output();
    CopyThrees(z, win, from, dist, len);
    CopiedMore(h, dist, len0 - len, g, len, z.Output());
  }

  /** A match within the output: at least three bytes, three at a time. */
  method CopyDirect(z: Inflater, dist: nat, len0: nat)
    requires z.Valid() && 1 <= dist <= z.put && 3 <= len0 && z.put + len0 <= z.out.Length
    modifies z`put, z.out
    ensures z.Valid() && z.put == old(z.put) + len0 && z.before == old(z.before)
    ensures Copied(old(z.Output()), dist, len0, z.Output())
  {
    hide WindowHolds, Copied, CanCopy;
    var from, len := z.put - dist, len0;
    ghost var h := z.Output();
    NothingCopied(h, dist);
    OutputSource(z.put, dist, z.wsize, z.whave, z.write, len);
    while true
      invariant z.Valid() && 3 <= len <= len0 && z.put == old(z.put) + (len0 - len) && z.put + len <= z.out.Length && 0 <= from
      invariant z.before == old(z.before)
      invariant Copied(h, dist, len0 - len, z.Output())
      invariant CanCopy(false, from, z.put, dist, z.wsize, z.whave, z.write, len)
      decreases len
    {
      CopyThree(z, false, from, dist, len, h, len0 - len);
      from := from + 3;
      len := len - 3;
      if len <= 2 {
        break;
      }
    }
    CopyTail(z, false, from, dist, len, h, len0 - len);
  }

  lemma OutputSource(put: nat, dist: nat, wsize: nat, whave: nat, write: nat, n: nat)
    requires 1 <= dist <= put
    ensures CanCopy(false, put - dist, put, dist, wsize, whave, write, n)
  {
  }
}
