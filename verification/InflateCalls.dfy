/** A sequence of calls of inflate: each brings some more input and an output buffer of its
    own. When a state needs input or room, the call returns, and the next one goes on in the
    same state. */
module InflateCalls {
  import opened Bits
  import opened BitStream
  import opened BitInput
  import opened History
  import opened InflateWindow

  datatype Call = Call(bytes: nat, size: nat)

  /** How many bytes the first j calls bring. */
  ghost function Brought(calls: seq<Call>, j: nat): nat
    requires j <= |calls|
  {
    if j == 0 then 0 else Brought(calls, j - 1) + calls[j - 1].bytes
  }

  /** What the first j calls bring of the input has been given. */
  ghost predicate GivenInput(rd: BitReader, calls: seq<Call>, j: nat)
    reads rd`limit
  {
    j <= |calls| && rd.limit == if Brought(calls, j) <= |rd.input| then Brought(calls, j) else |rd.input|
  }

  /** The same, and the output buffer is that of the last of them. */
  ghost predicate Given(rd: BitReader, z: Inflater, calls: seq<Call>, j: nat)
    reads rd`limit, z`out
  {
    GivenInput(rd, calls, j) && (j > 0 ==> z.out.Length == calls[j - 1].size)
  }

  /** Returns from inflate, and is called again if there is another call. */
  method NextCall(rd: BitReader, z: Inflater, calls: seq<Call>, j0: nat) returns (ok: bool, j: nat)
    requires rd.Valid() && z.Valid() && Given(rd, z, calls, j0)
    modifies rd`limit, z, z.window
    ensures rd.Valid() && z.Valid() && rd.Value() == old(rd.Value()) && rd.Left() == old(rd.Left()) && rd.limit >= old(rd.limit)
    ensures z.Output() == old(z.Output())
    ensures Given(rd, z, calls, j) && (ok <==> j0 < |calls|)
    ensures ok ==> j == j0 + 1 && fresh(z.out) && z.put == 0
    ensures !ok ==> j == j0 && z.out == old(z.out) && z.put == old(z.put) && rd.limit == old(rd.limit)
  {
    j := j0;
    if j == |calls| {
      return false, j;
    }
    rd.More(calls[j].bytes);
    z.NewCall(calls[j].size);
    return true, j + 1;
  }

  /** Makes sure that there are n bits at hand. */
  method NeedOverCalls(rd: BitReader, z: Inflater, calls: seq<Call>, j0: nat, n: nat) returns (ok: bool, j: nat)
    requires rd.Valid() && z.Valid() && rd.bits < 8 && n <= 16 && Given(rd, z, calls, j0)
    modifies rd, z, z.window
    ensures rd.Valid() && z.Valid() && (z.out == old(z.out) || fresh(z.out)) && j0 <= j && Given(rd, z, calls, j)
    ensures rd.Value() == old(rd.Value()) && rd.Left() == old(rd.Left()) && z.Output() == old(z.Output())
    ensures ok ==> n <= rd.bits < n + 8
    ensures !ok ==> j == |calls| && rd.pos == rd.limit && rd.bits < n
  {
    hide Shl, Stream, Pow2;
    j := j0;
    while true
      invariant rd.Valid() && z.Valid() && (z.out == old(z.out) || fresh(z.out)) && j0 <= j && Given(rd, z, calls, j)
      invariant rd.Value() == old(rd.Value()) && rd.Left() == old(rd.Left()) && z.Output() == old(z.Output())
      invariant Lean(rd.bits, n)
      decreases |calls| - j
    {
      ok := rd.NeedBits(n);
      if ok {
        return;
      }
      ok, j := NextCall(rd, z, calls, j);
      if !ok {
        return;
      }
    }
  }

  /** Reads a field of n bits. */
  method FieldOverCalls(rd: BitReader, z: Inflater, calls: seq<Call>, j0: nat, n: nat) returns (ok: bool, x: nat, j: nat)
    requires rd.Valid() && z.Valid() && rd.bits < 8 && n <= 16 && Given(rd, z, calls, j0)
    modifies rd, z, z.window
    ensures rd.Valid() && rd.bits <= 24 && z.Valid() && (z.out == old(z.out) || fresh(z.out)) && j0 <= j && Given(rd, z, calls, j)
    ensures z.Output() == old(z.Output())
    ensures ok ==> x == Low(old(rd.Value()), n) && rd.Value() == Shr(old(rd.Value()), n) && rd.Left() + n == old(rd.Left()) && rd.bits < 8
    ensures !ok ==> j == |calls| && rd.Left() == old(rd.Left()) && rd.pos == rd.limit && rd.bits < n
  {
    hide Low, Shl, Shr, Stream, Pow2, WindowHolds;
    x := 0;
    ok, j := NeedOverCalls(rd, z, calls, j0, n);
    if ok {
      x := rd.Peek(n);
      rd.DropBits(n);
    }
  }

  function Sizes(calls: seq<Call>): (r: seq<nat>)
    ensures |r| == |calls|
  {
    seq(|calls|, i requires 0 <= i < |calls| => calls[i].size)
  }

  /** The input of the calls from i to j, which were spent on output alone. */
  method GiveInput(rd: BitReader, calls: seq<Call>, i: nat, j: nat)
    requires rd.Valid() && i <= j <= |calls| && GivenInput(rd, calls, i)
    modifies rd`limit
    ensures rd.Valid() && rd.Value() == old(rd.Value()) && rd.Left() == old(rd.Left()) && rd.limit >= old(rd.limit)
    ensures GivenInput(rd, calls, j)
  {
    var k := i;
    while k < j
      invariant i <= k <= j && rd.Valid() && rd.Value() == old(rd.Value()) && rd.Left() == old(rd.Left()) && rd.limit >= old(rd.limit)
      invariant GivenInput(rd, calls, k)
    {
      rd.More(calls[k].bytes);
      k := k + 1;
    }
  }
}
