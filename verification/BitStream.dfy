/** Bits sent and received, the first bit lowest: a run of bits is a number, and
    the bytes of the stream are its digits to base 256. */
module BitStream {
  import opened Bits

  function Stream(s: seq<Byte>): nat {
    if s == [] then 0 else s[0] + Shl(Stream(s[1..]), 8)
  }

  /** Bytes are filled from their low bits on: bit i of the stream is bit i % 8 of byte i / 8. */
  lemma {:induction false} StreamBit(s: seq<Byte>, i: nat)
    requires i < 8 * |s|
    ensures Shr(Stream(s), i) % 2 == Shr(s[i / 8], i % 8) % 2
    decreases |s|
  {
    hide Shl, Shr, Low, Pow2;
    var rest := Stream(s[1..]);
    Pow2Eight();
    if i < 8 {
      ByteBit(s[0], rest, i);
    } else {
      StreamBit(s[1..], i - 8);
      LowAddShl(s[0], rest, 8);
      ShrShr(Stream(s), 8, i - 8);
      assert s[1..][(i - 8) / 8] == s[i / 8];
    }
  }

  lemma ByteBit(b: Byte, rest: nat, i: nat)
    requires i < 8
    ensures Shr(b + Shl(rest, 8), i) % 2 == Shr(b, i) % 2
  {
    hide Shl, Shr, Low;
    ShlShl(rest, 8 - i, i);
    LowShr(b, i);
    ShlAdd(Shr(b, i), Shl(rest, 8 - i), i);
    LowAddShl(Low(b, i), Shr(b, i) + Shl(rest, 8 - i), i);
    EvenShl(rest, 8 - i);
  }

  lemma EvenShl(x: nat, n: nat)
    requires n > 0
    ensures Shl(x, n) % 2 == 0
  {
  }

  lemma {:induction false} StreamAppend(a: seq<Byte>, b: seq<Byte>)
    ensures Stream(a + b) == Stream(a) + Shl(Stream(b), 8 * |a|)
    decreases |a|
  {
    hide Shl;
    if a == [] {
      assert a + b == b;
      ShlNone(Stream(b));
    } else {
      assert (a + b)[1..] == a[1..] + b;
      StreamAppend(a[1..], b);
      ShlAdd(Stream(a[1..]), Shl(Stream(b), 8 * |a[1..]|), 8);
      ShlShl(Stream(b), 8 * |a[1..]|, 8);
    }
  }

  lemma {:induction false} ByteStream(lo: Byte, hi: Byte)
    ensures Stream([lo]) == lo && Stream([lo, hi]) == lo + 256 * hi
  {
    ByteShl(0);
    ByteShl(hi);
    assert [lo][1..] == [] && [lo, hi][1..] == [hi] && [hi][1..] == [];
    assert Stream([]) == 0;
    assert Stream([hi]) == hi + Shl(0, 8);
    assert Stream([lo, hi]) == lo + Shl(Stream([hi]), 8);
  }

  lemma ByteShl(x: nat)
    ensures Shl(x, 8) == 256 * x
  {
    assert Shl(x, 1) == 2 * x && Shl(x, 2) == 4 * x && Shl(x, 3) == 8 * x && Shl(x, 4) == 16 * x;
  }

  lemma {:induction false} SumBound(low: nat, value: nat, m: nat, n: nat)
    requires low < Pow2(m) && value < Pow2(n)
    ensures low + Shl(value, m) < Pow2(m + n)
    decreases m
  {
    if m > 0 {
      SumBound(low / 2, value, m - 1, n);
    }
  }

  /** The encoder's bit buffer of 16 bits, and the bytes it has put out. */
  class BitWriter {
    var biBuf: nat
    var biValid: nat
    var pending: seq<Byte>

    ghost predicate Valid()
      reads this
    {
      biValid <= 16 && biBuf < Pow2(biValid)
    }

    /** All bits sent so far. */
    ghost function Value(): nat
      reads this
    {
      Stream(pending) + Shl(biBuf, 8 * |pending|)
    }

    /** How many they are. */
    ghost function Length(): nat
      reads this
    {
      8 * |pending| + biValid
    }

    constructor ()
      ensures Valid() && Value() == 0 && Length() == 0
    {
      biBuf, biValid, pending := 0, 0, [];
      new;
      ShlNone(0);
    }

    method PutShort(w: nat)
      requires w < 65536
      modifies this`pending
      ensures pending == old(pending) + [w % 256, w / 256]
    {
      pending := pending + [w % 256];
      pending := pending + [w / 256];
    }

    /** Sends the low len bits of value, first bit lowest. */
    method SendBits(value: nat, len: nat)
      requires Valid() && len <= 16 && value < Pow2(len)
      modifies this
      ensures Valid() && Length() == old(Length()) + len
      ensures Value() == old(Value()) + Shl(value, old(Length()))
    {
      hide Shl, Shr, Pow2, Low, Stream;
      ghost var buf, valid, bytes := biBuf, biValid, pending;
      SentValue(bytes, buf, valid, value);
      SumBound(buf, value, valid, len);
      if biValid > 16 - len {
        Spill(bytes, buf, valid, value, len);
        biBuf := Low(biBuf + Shl(value, biValid), 16);
        PutShort(biBuf);
        biBuf := Shr(Low(value, 16), 16 - biValid);
        biValid := biValid + len - 16;
      } else {
        Keep(buf, valid, value, len);
        biBuf := Low(biBuf + Shl(value, biValid), 16);
        biValid := biValid + len;
      }
    }

    /** Puts out the bits that are left, filled up with zeros. */
    method BiWindup()
      requires Valid()
      modifies this
      ensures Valid() && biValid == 0 && biBuf == 0
      ensures Stream(pending) == old(Value()) && Value() == old(Value())
      ensures Length() >= old(Length())
    {
      hide Shl, Stream;
      ghost var buf, bytes := biBuf, pending;
      Pow2Short(biValid);
      if biValid > 8 {
        PutShort(biBuf);
        ByteStream(buf % 256, buf / 256);
        StreamAppend(bytes, [buf % 256, buf / 256]);
      } else if biValid > 0 {
        pending := pending + [biBuf];
        ByteStream(buf, 0);
        StreamAppend(bytes, [buf]);
      } else {
        Shl0(8 * |bytes|);
        assert biBuf == 0;
      }
      biBuf := 0;
      biValid := 0;
      Shl0(8 * |pending|);
    }
  }

  lemma Pow2Short(n: nat)
    requires n <= 16
    ensures Pow2(n) <= 65536 && (n <= 8 ==> Pow2(n) <= 256) && (n == 0 ==> Pow2(n) == 1)
  {
    Pow2Monotone(n, 16);
    Pow2Eight();
    if n <= 8 {
      Pow2Monotone(n, 8);
    }
  }

  lemma Pow2Eight()
    ensures Pow2(8) == 256 && Pow2(16) == 65536
  {
    assert Pow2(4) == 16;
    assert Pow2(8) == 256;
    assert Pow2(12) == 4096;
  }

  lemma SentValue(bytes: seq<Byte>, buf: nat, valid: nat, value: nat)
    ensures Stream(bytes) + Shl(buf + Shl(value, valid), 8 * |bytes|)
         == Stream(bytes) + Shl(buf, 8 * |bytes|) + Shl(value, 8 * |bytes| + valid)
  {
    hide Shl;
    ShlAdd(buf, Shl(value, valid), 8 * |bytes|);
    ShlShl(value, valid, 8 * |bytes|);
  }

  lemma Keep(buf: nat, valid: nat, value: nat, len: nat)
    requires buf + Shl(value, valid) < Pow2(valid + len) && valid + len <= 16
    ensures Low(buf + Shl(value, valid), 16) == buf + Shl(value, valid)
  {
    hide Shl, Low;
    Pow2Monotone(valid + len, 16);
    LowSmall(buf + Shl(value, valid), 16);
  }

  /** Sixteen bits go out and the rest of value stays in the buffer. */
  lemma Spill(bytes: seq<Byte>, buf: nat, valid: nat, value: nat, len: nat)
    requires valid <= 16 && len <= 16 && buf < Pow2(valid) && value < Pow2(len) && valid > 16 - len
    ensures var w, rest := Low(buf + Shl(value, valid), 16), Shr(Low(value, 16), 16 - valid);
            && w < 65536 && rest < Pow2(valid + len - 16)
            && Stream(bytes + [w % 256, w / 256]) + Shl(rest, 8 * (|bytes| + 2)) == Stream(bytes) + Shl(buf + Shl(value, valid), 8 * |bytes|)
  {
    hide Shl, Shr, Low, Stream, Pow2;
    var x := buf + Shl(value, valid);
    var w := Low(x, 16);
    Pow2Short(16);
    Pow2Monotone(len, 16);
    LowSmall(value, 16);
    LowShr(x, 16);
    LowAddShl(buf, value, valid);
    ShrShr(x, valid, 16 - valid);
    var rest := Shr(value, 16 - valid);
    ShrBound(value, len, valid + len - 16);
    ByteStream(w % 256, w / 256);
    StreamAppend(bytes, [w % 256, w / 256]);
    ShlAdd(w, Shl(rest, 16), 8 * |bytes|);
    ShlShl(rest, 16, 8 * |bytes|);
  }

  /** After the value v of length n, the number x of len bits was sent. */
  ghost predicate SentNumber(v: nat, n: nat, x: nat, len: nat, value: nat, length: nat) {
    value == v + Shl(x, n) && length == n + len
  }

  lemma SentThen(v: nat, n: nat, x: nat, len: nat, value: nat, length: nat, y: nat, len': nat, value': nat, length': nat)
    requires SentNumber(v, n, x, len, value, length) && SentNumber(value, length, y, len', value', length')
    ensures SentNumber(v, n, x + Shl(y, len), len + len', value', length')
  {
    hide Shl;
    ShlAdd(x, Shl(y, len), n);
    ShlShl(y, len, n);
  }

  lemma SentNothing(v: nat, n: nat)
    ensures SentNumber(v, n, 0, 0, v, n)
  {
    Shl0(n);
  }

  lemma SentOneField(v: nat, n: nat, x: nat, len: nat, value: nat, length: nat)
    requires value == v + Shl(x, n) && length == n + len
    ensures SentNumber(v, n, x, len, value, length)
  {
  }
}
