/** The decoder's bit accumulator over the input bytes. */
module BitInput {
  import opened Bits
  import opened BitStream

  /** The bit accumulator of inflate and its position in the input, of which the first
      limit bytes have been given so far. */
  class BitReader {
    const input: seq<Byte>
    var pos: nat
    var limit: nat
    var hold: nat
    var bits: nat

    ghost predicate Valid()
      reads this
    {
      pos <= limit <= |input| && hold < Pow2(bits) && bits <= 32
    }

    /** All bits still to be read, those not given yet included. */
    ghost function Value(): nat
      reads this
      requires Valid()
    {
      hold + Shl(Stream(input[pos..]), bits)
    }

    /** How many can be read now. */
    ghost function Avail(): nat
      reads this
      requires Valid()
    {
      bits + 8 * (limit - pos)
    }

    /** How many they are in all. */
    ghost function Left(): nat
      reads this
      requires Valid()
    {
      Avail() + 8 * (|input| - limit)
    }

    constructor (input: seq<Byte>)
      ensures Valid() && Value() == Stream(input) && Left() == 8 * |input|
      ensures this.input == input && bits == 0 && limit == 0
    {
      this.input := input;
      pos, limit, hold, bits := 0, 0, 0, 0;
      new;
      assert this.input[0..] == input;
      ShlNone(Stream(input));
    }

    /** Gives n more bytes of the input, or as many as there are. */
    method More(n: nat)
      requires Valid()
      modifies this`limit
      ensures Valid() && Value() == old(Value()) && Left() == old(Left())
      ensures limit == if old(limit) + n <= |input| then old(limit) + n else |input|
    {
      limit := if limit + n <= |input| then limit + n else |input|;
    }

    /** Moves one byte of input into the accumulator. */
    method Pull()
      requires Valid() && bits <= 24 && pos < limit
      modifies this`pos, this`hold, this`bits
      ensures Valid() && Value() == old(Value()) && Avail() == old(Avail())
      ensures pos == old(pos) + 1 && bits == old(bits) + 8
    {
      hide Shl, Stream, Pow2;
      Pulled(hold, bits, input[pos..]);
      assert input[pos..][1..] == input[pos + 1..];
      hold := hold + Shl(input[pos], bits);
      pos := pos + 1;
      bits := bits + 8;
    }

    /** The same, if there is one. */
    method PullByte() returns (ok: bool)
      requires Valid() && bits <= 24
      modifies this`pos, this`hold, this`bits
      ensures Valid() && Value() == old(Value()) && Avail() == old(Avail())
      ensures ok <==> old(pos) < limit
      ensures ok ==> bits == old(bits) + 8 && pos == old(pos) + 1
      ensures !ok ==> pos == old(pos) && hold == old(hold) && bits == old(bits)
    {
      hide Shl, Stream, Pow2;
      if pos == limit {
        return false;
      }
      Pull();
      return true;
    }

    /** Makes sure that there are n bits in the accumulator. */
    method NeedBits(n: nat) returns (ok: bool)
      requires Valid() && n <= 25
      modifies this`pos, this`hold, this`bits
      ensures Valid() && Value() == old(Value()) && Avail() == old(Avail())
      ensures ok <==> old(Avail()) >= n
      ensures ok ==> bits >= n
      ensures bits <= old(bits) || bits < n + 8
      ensures !ok ==> pos == limit && old(bits) <= bits < n
      ensures pos == old(pos) ==> bits == old(bits) && hold == old(hold)
    {
      hide Shl, Stream, Pow2;
      while bits < n
        invariant Valid() && Value() == old(Value()) && Avail() == old(Avail())
        invariant bits <= old(bits) || bits < n + 8
        invariant old(bits) <= bits && old(pos) <= pos && (pos == old(pos) ==> bits == old(bits) && hold == old(hold))
        decreases limit - pos
      {
        ok := PullByte();
        if !ok {
          return;
        }
      }
      return true;
    }

    /** The low n bits of the accumulator are the next n bits. */
    method Peek(n: nat) returns (x: nat)
      requires Valid() && n <= bits
      ensures x == Low(Value(), n)
    {
      hide Shl, Stream, Pow2, Low;
      PartOfLow(hold, Stream(input[pos..]), bits, n);
      x := Low(hold, n);
    }

    method DropBits(n: nat)
      requires Valid() && n <= bits
      modifies this`pos, this`hold, this`bits
      ensures Valid() && Value() == Shr(old(Value()), n) && Avail() + n == old(Avail())
      ensures bits == old(bits) - n && pos == old(pos) && hold == Shr(old(hold), n)
    {
      hide Shl, Stream, Pow2, Low, Shr;
      Dropped(hold, bits, Stream(input[pos..]), n);
      hold := Shr(hold, n);
      bits := bits - n;
    }
  }

  /** The bits at hand are less than a byte, or less than what is needed next. */
  ghost predicate Lean(bits: nat, need: nat) {
    bits < 8 || bits < need
  }

  lemma Pulled(hold: nat, bits: nat, rest: seq<Byte>)
    requires hold < Pow2(bits) && rest != []
    ensures hold + Shl(rest[0], bits) < Pow2(bits + 8)
    ensures hold + Shl(rest[0], bits) + Shl(Stream(rest[1..]), bits + 8) == hold + Shl(Stream(rest), bits)
  {
    hide Shl, Pow2;
    Pow2Eight();
    SumBound(hold, rest[0], bits, 8);
    ShlAdd(rest[0], Shl(Stream(rest[1..]), 8), bits);
    ShlShl(Stream(rest[1..]), 8, bits);
  }

  lemma Dropped(hold: nat, bits: nat, high: nat, n: nat)
    requires hold < Pow2(bits) && n <= bits
    ensures Shr(hold, n) < Pow2(bits - n)
    ensures Shr(hold + Shl(high, bits), n) == Shr(hold, n) + Shl(high, bits - n)
  {
    hide Shl, Shr, Low, Pow2;
    ShrBound(hold, bits, bits - n);
    LowShr(hold, n);
    ShlAdd(Shr(hold, n), Shl(high, bits - n), n);
    ShlShl(high, bits - n, n);
    LowAddShl(Low(hold, n), Shr(hold, n) + Shl(high, bits - n), n);
  }
}
